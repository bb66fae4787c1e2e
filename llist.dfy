/**
 * The doubly linked list template LList<T> with its bidirectional iterator.
 * An iterator is the node it points at; `null` is end(). The nodes of a list,
 * in order, are the ghost sequence `nodes`; `contents` holds their data.
 */
module LinkedList {
  import opened CLib
  import opened SeqOps

  class Node<T> {
    var data: T
    var prev: Node?<T>
    var next: Node?<T>

    constructor (value: T)
      ensures data == value && prev == null && next == null
    {
      data := value;
      prev := null;
      next := null;
    }
  }

  /**
   * `ns` are distinct nodes linked both ways, in order, from `h` to `t`, and
   * `vs` are their data. An empty chain has null ends.
   */
  ghost predicate Chain<T>(ns: seq<Node<T>>, vs: seq<T>, h: Node?<T>, t: Node?<T>)
    reads ns
  {
    |vs| == |ns| &&
    (forall i :: 0 <= i < |ns| ==> ns[i].data == vs[i]) &&
    (forall i, j :: 0 <= i < j < |ns| ==> ns[i] != ns[j]) &&
    (forall i :: 0 <= i < |ns| - 1 ==> ns[i].next == ns[i + 1] && ns[i + 1].prev == ns[i]) &&
    if ns == [] then h == null && t == null
    else h == ns[0] && t == ns[|ns| - 1] && h.prev == null && t.next == null
  }

  /** The neighbours of the k-th node of a chain. */
  lemma ChainLinks<T>(ns: seq<Node<T>>, vs: seq<T>, h: Node?<T>, t: Node?<T>, k: nat)
    requires Chain(ns, vs, h, t) && k < |ns|
    ensures ns[k].next == (if k + 1 < |ns| then ns[k + 1] else null)
    ensures ns[k].prev == (if k > 0 then ns[k - 1] else null)
  {
  }

  /** Splicing node `n` in before the k-th node of a chain gives a chain. */
  lemma ChainSplice<T>(ns: seq<Node<T>>, vs: seq<T>, h: Node?<T>, t: Node?<T>, k: nat, n: Node<T>)
    requires 0 < k < |ns| == |vs| && n !in ns
    requires forall i :: 0 <= i < |ns| ==> ns[i].data == vs[i]
    requires forall i, j :: 0 <= i < j < |ns| ==> ns[i] != ns[j]
    requires forall i :: 0 <= i < |ns| - 1 && i != k - 1 ==> ns[i].next == ns[i + 1] && ns[i + 1].prev == ns[i]
    requires ns[k - 1].next == n && n.prev == ns[k - 1] && n.next == ns[k] && ns[k].prev == n
    requires h == ns[0] && t == ns[|ns| - 1] && h.prev == null && t.next == null
    ensures Chain(ns[..k] + [n] + ns[k..], vs[..k] + [n.data] + vs[k..], h, t)
  {
    var ns' := ns[..k] + [n] + ns[k..];
    assert forall i :: 0 <= i < k ==> ns'[i] == ns[i];
    assert forall i :: k < i < |ns'| ==> ns'[i] == ns[i - 1];
    forall i | 0 <= i < |ns'| - 1
      ensures ns'[i].next == ns'[i + 1] && ns'[i + 1].prev == ns'[i]
    {
      if i < k - 1 {
        assert ns'[i] == ns[i] && ns'[i + 1] == ns[i + 1];
      } else if i > k {
        assert ns'[i] == ns[i - 1] && ns'[i + 1] == ns[i];
      }
    }
  }

  /** Cutting the k-th node, neither first nor last, out of a chain gives a chain. */
  lemma ChainCut<T>(ns: seq<Node<T>>, vs: seq<T>, h: Node?<T>, t: Node?<T>, k: nat)
    requires 0 < k < |ns| - 1 && |ns| == |vs|
    requires forall i :: 0 <= i < |ns| ==> ns[i].data == vs[i]
    requires forall i, j :: 0 <= i < j < |ns| ==> ns[i] != ns[j]
    requires forall i :: 0 <= i < |ns| - 1 && i != k - 1 && i != k ==> ns[i].next == ns[i + 1] && ns[i + 1].prev == ns[i]
    requires ns[k - 1].next == ns[k + 1] && ns[k + 1].prev == ns[k - 1]
    requires h == ns[0] && t == ns[|ns| - 1] && h.prev == null && t.next == null
    ensures Chain(ns[..k] + ns[k + 1..], vs[..k] + vs[k + 1..], h, t)
  {
    var ns' := ns[..k] + ns[k + 1..];
    assert forall i :: 0 <= i < k ==> ns'[i] == ns[i];
    assert forall i :: k <= i < |ns'| ==> ns'[i] == ns[i + 1];
    forall i | 0 <= i < |ns'| - 1
      ensures ns'[i].next == ns'[i + 1] && ns'[i + 1].prev == ns'[i]
    {
      if i < k - 1 {
        assert ns'[i] == ns[i] && ns'[i + 1] == ns[i + 1];
      } else if i >= k {
        assert ns'[i] == ns[i + 1] && ns'[i + 1] == ns[i + 2];
      }
    }
  }

  /** The writes that link node `n` in ahead of `h`, the first node of a non-empty chain. */
  method PrependNode<T>(ghost ns: seq<Node<T>>, ghost vs: seq<T>, h: Node<T>, ghost t: Node?<T>, n: Node<T>)
    requires Chain(ns, vs, h, t) && n !in ns && n.prev == null
    modifies h, n
    ensures Chain([n] + ns, [old(n.data)] + vs, n, t)
  {
    ChainLinks(ns, vs, h, t, 0);
    n.next := h;
    h.prev := n;
    var ns' := [n] + ns;
    assert forall i :: 0 < i < |ns'| ==> ns'[i] == ns[i - 1];
  }

  /** The writes that link node `n` in after `t`, the last node of a non-empty chain. */
  method AppendNode<T>(ghost ns: seq<Node<T>>, ghost vs: seq<T>, ghost h: Node?<T>, t: Node<T>, n: Node<T>)
    requires Chain(ns, vs, h, t) && n !in ns && n.next == null
    modifies t, n
    ensures Chain(ns + [n], vs + [old(n.data)], h, n)
  {
    ChainLinks(ns, vs, h, t, |ns| - 1);
    t.next := n;
    n.prev := t;
    var ns' := ns + [n];
    assert forall i :: 0 <= i < |ns| ==> ns'[i] == ns[i];
  }

  /** The writes that link node `n` in between `before` and `position`, the (k-1)-th and k-th nodes of a chain. */
  method SpliceNode<T>(ghost ns: seq<Node<T>>, ghost vs: seq<T>, ghost h: Node?<T>, ghost t: Node?<T>, ghost k: nat,
                       before: Node<T>, n: Node<T>, position: Node<T>)
    requires Chain(ns, vs, h, t) && 0 < k < |ns| && ns[k - 1] == before && ns[k] == position
    requires n !in ns
    modifies before, n, position
    ensures Chain(ns[..k] + [n] + ns[k..], vs[..k] + [old(n.data)] + vs[k..], h, t)
  {
    ChainLinks(ns, vs, h, t, k - 1);
    ChainLinks(ns, vs, h, t, k);
    before.next := n;
    n.prev := before;
    n.next := position;
    position.prev := n;
    ChainSplice(ns, vs, h, t, k, n);
  }

  /** The writes that unlink the k-th node of a chain, neither first nor last, from its neighbours. */
  method CutNode<T>(ghost ns: seq<Node<T>>, ghost vs: seq<T>, ghost h: Node?<T>, ghost t: Node?<T>, ghost k: nat,
                    position: Node<T>)
    requires Chain(ns, vs, h, t) && 0 < k < |ns| - 1 && ns[k] == position
    modifies ns[k - 1], ns[k + 1]
    ensures Chain(ns[..k] + ns[k + 1..], vs[..k] + vs[k + 1..], h, t)
  {
    ChainLinks(ns, vs, h, t, k - 1);
    ChainLinks(ns, vs, h, t, k);
    ChainLinks(ns, vs, h, t, k + 1);
    var before, after := position.prev, position.next;
    before.next := after;
    after.prev := before;
    ChainCut(ns, vs, h, t, k);
  }

  class LList<T> {
    var head: Node?<T>
    var tail: Node?<T>
    var count: nat

    ghost var nodes: seq<Node<T>>
    ghost var contents: seq<T>
    ghost var Repr: set<object>

    /** The nodes form one chain from head to tail, and count is its length. */
    ghost predicate Valid()
      reads this, Repr
    {
      this in Repr &&
      (forall i :: 0 <= i < |nodes| ==> nodes[i] in Repr) &&
      count == |nodes| &&
      Chain(nodes, contents, head, tail)
    }

    /** An iterator into this list: one of its nodes, or end(). */
    ghost predicate IsIterator(it: Node?<T>)
      reads this
    {
      it == null || it in nodes
    }

    /** LList(): the empty list. */
    constructor ()
      ensures Valid() && fresh(Repr) && contents == []
    {
      head, tail, count := null, null, 0;
      nodes, contents := [], [];
      Repr := {this};
    }

    /** LList(std::initializer_list): the list of the given values, in order. */
    constructor FromList(values: seq<T>)
      ensures Valid() && fresh(Repr) && contents == values
    {
      head, tail, count := null, null, 0;
      nodes, contents := [], [];
      Repr := {this};
      new;
      for i := 0 to |values|
        invariant Valid() && fresh(Repr)
        invariant contents == values[..i]
      {
        PushBack(values[i]);
      }
    }

    /** LList(const LList&): a deep copy, with nodes of its own. */
    constructor Copy(other: LList<T>)
      requires other.Valid()
      ensures Valid() && fresh(Repr) && contents == other.contents
    {
      head, tail, count := null, null, 0;
      nodes, contents := [], [];
      Repr := {this};
      new;
      var current := other.head;
      ghost var k := 0;
      while current != null
        invariant Valid() && fresh(Repr)
        invariant k <= |other.nodes|
        invariant current == if k < |other.nodes| then other.nodes[k] else null
        invariant contents == other.contents[..k]
        decreases |other.nodes| - k
      {
        PushBack(current.data);
        current := current.next;
        k := k + 1;
      }
    }

    /** LList(LList&&): takes over the nodes of `other`, which is left empty. */
    constructor Move(other: LList<T>)
      requires other.Valid()
      modifies other
      ensures Valid() && other.Valid()
      ensures contents == old(other.contents) && other.contents == []
      ensures Repr !! other.Repr
    {
      head, tail, count := other.head, other.tail, other.count;
      nodes, contents := other.nodes, other.contents;
      Repr := {this} + (other.Repr - {other});
      new;
      other.Adopt(null, null, 0, [], [], {other});
    }

    /** empty(): the list has no elements. */
    function Empty(): (b: bool)
      reads this, Repr
      requires Valid()
      ensures b <==> contents == []
    {
      head == null
    }

    /** size(): the number of elements. */
    function Size(): (n: nat)
      reads this, Repr
      requires Valid()
      ensures n == |contents|
    {
      count
    }

    /** front(): the first element; std::out_of_range on an empty list. */
    function Front(): (r: Result<T>)
      reads this, Repr
      requires Valid()
      ensures contents == [] ==> r == Err(OutOfRange)
      ensures contents != [] ==> r == Ok(contents[0])
    {
      if head == null then Err(OutOfRange) else Ok(head.data)
    }

    /** back(): the last element; std::out_of_range on an empty list. */
    function Back(): (r: Result<T>)
      reads this, Repr
      requires Valid()
      ensures contents == [] ==> r == Err(OutOfRange)
      ensures contents != [] ==> r == Ok(contents[|contents| - 1])
    {
      if tail == null then Err(OutOfRange) else Ok(tail.data)
    }

    /** begin(): the first node, or end() on an empty list. */
    function Begin(): (it: Node?<T>)
      reads this, Repr
      requires Valid()
      ensures IsIterator(it) && (it == null <==> contents == [])
      ensures contents != [] ==> it == nodes[0]
    {
      head
    }

    /** Iterator `*`: the element under the iterator; std::runtime_error at end(). */
    function Deref(it: Node?<T>): (r: Result<T>)
      reads this, Repr
      requires Valid() && IsIterator(it)
      ensures it == null ==> r == Err(RuntimeError)
      ensures forall k :: 0 <= k < |nodes| && nodes[k] == it ==> r == Ok(contents[k])
    {
      if it == null then Err(RuntimeError) else Ok(it.data)
    }

    /** Iterator prefix `++`: the next node, end() after the last; std::runtime_error at end(). */
    function Next(it: Node?<T>): (r: Result<Node?<T>>)
      reads this, Repr
      requires Valid() && IsIterator(it)
      ensures r.Ok? ==> IsIterator(r.value)
      ensures it == null ==> r == Err(RuntimeError)
      ensures forall k :: 0 <= k < |nodes| && nodes[k] == it ==>
                r == Ok(if k + 1 < |nodes| then nodes[k + 1] else null)
    {
      if it == null then Err(RuntimeError)
      else
        IteratorNeighbours(it);
        Ok(it.next)
    }

    /**
     * Iterator prefix `--`: the previous node. Stepping back from the first
     * node gives end(), and stepping back from end() throws std::runtime_error.
     */
    function Prev(it: Node?<T>): (r: Result<Node?<T>>)
      reads this, Repr
      requires Valid() && IsIterator(it)
      ensures r.Ok? ==> IsIterator(r.value)
      ensures it == null ==> r == Err(RuntimeError)
      ensures forall k :: 0 <= k < |nodes| && nodes[k] == it ==>
                r == Ok(if k > 0 then nodes[k - 1] else null)
    {
      if it == null then Err(RuntimeError)
      else
        IteratorNeighbours(it);
        Ok(it.prev)
    }

    /** The neighbours of a node of the list are iterators into it. */
    lemma IteratorNeighbours(it: Node<T>)
      requires Valid() && it in nodes
      ensures IsIterator(it.next) && IsIterator(it.prev)
    {
      var k :| 0 <= k < |nodes| && nodes[k] == it;
      ChainLinks(nodes, contents, head, tail, k);
    }

    /**
     * Iterator postfix `++` and `--`: the same step and the same exception,
     * but the expression's value is the iterator as it was; the result pairs
     * that value with the moved iterator.
     */
    function PostStep(it: Node?<T>, forward: bool): (r: Result<(Node?<T>, Node?<T>)>)
      reads this, Repr
      requires Valid() && IsIterator(it)
      ensures it == null ==> r == Err(RuntimeError)
      ensures it != null ==>
        r.Ok? && r.value.0 == it && Ok(r.value.1) == (if forward then Next(it) else Prev(it))
    {
      if it == null then Err(RuntimeError)
      else Ok((it, if forward then it.next else it.prev))
    }

    /** The iterator reached from `it` by `n` prefix increments. */
    ghost function Advance(it: Node?<T>, n: nat): Result<Node?<T>>
      reads this, Repr
      requires Valid() && IsIterator(it)
      decreases n
    {
      if n == 0 then Ok(it)
      else match Next(it)
        case Ok(nx) => Advance(nx, n - 1)
        case Err(e) => Err(e)
    }

    /** Walking `k` steps from begin() reaches the k-th element, and size() steps reach end(). */
    lemma {:induction false} AdvanceFromBegin(k: nat)
      requires Valid() && k <= |nodes|
      ensures Advance(Begin(), k) == Ok(if k < |nodes| then nodes[k] else null)
    {
      AdvanceFrom(0, k);
    }

    lemma {:induction false} AdvanceFrom(i: nat, k: nat)
      requires Valid() && i + k <= |nodes|
      decreases k
      ensures var start := if i < |nodes| then nodes[i] else null;
              Advance(start, k) == Ok(if i + k < |nodes| then nodes[i + k] else null)
    {
      if k > 0 {
        assert Next(nodes[i]) == Ok(if i + 1 < |nodes| then nodes[i + 1] else null);
        AdvanceFrom(i + 1, k - 1);
      }
    }

    /** Links the unattached node `n` in as the first element. */
    method LinkFront(n: Node<T>)
      requires Valid() && n !in Repr && n.prev == null && n.next == null
      modifies Repr, n
      ensures Valid() && Repr == old(Repr) + {n}
      ensures nodes == [n] + old(nodes) && contents == [old(n.data)] + old(contents)
    {
      ghost var ns, vs := nodes, contents;
      if head == null {
        head, tail := n, n;
      } else {
        PrependNode(ns, vs, head, tail, n);
        head := n;
      }
      count := count + 1;
      nodes, contents := [n] + ns, [old(n.data)] + vs;
      Repr := Repr + {n};
    }

    /** Links the unattached node `n` in as the last element. */
    method LinkBack(n: Node<T>)
      requires Valid() && n !in Repr && n.prev == null && n.next == null
      modifies Repr, n
      ensures Valid() && Repr == old(Repr) + {n}
      ensures nodes == old(nodes) + [n] && contents == old(contents) + [old(n.data)]
    {
      ghost var ns, vs := nodes, contents;
      if tail == null {
        head, tail := n, n;
      } else {
        AppendNode(ns, vs, head, tail, n);
        tail := n;
      }
      count := count + 1;
      nodes, contents := ns + [n], vs + [old(n.data)];
      Repr := Repr + {n};
    }

    /** Links the unattached node `n` in just before the k-th node, which is not the first. */
    method LinkBefore(position: Node<T>, n: Node<T>, ghost k: nat)
      requires Valid() && 0 < k < |nodes| && nodes[k] == position
      requires n !in Repr && n.prev == null && n.next == null
      modifies Repr, n
      ensures Valid() && Repr == old(Repr) + {n}
      ensures nodes == old(nodes)[..k] + [n] + old(nodes)[k..]
      ensures contents == old(contents)[..k] + [old(n.data)] + old(contents)[k..]
    {
      ghost var ns, vs := nodes, contents;
      ChainLinks(ns, vs, head, tail, k);
      SpliceNode(ns, vs, head, tail, k, position.prev, n, position);
      count := count + 1;
      nodes, contents := ns[..k] + [n] + ns[k..], vs[..k] + [old(n.data)] + vs[k..];
      Repr := Repr + {n};
    }

    /** push_front(value): value becomes the first element. */
    method PushFront(value: T)
      requires Valid()
      modifies Repr
      ensures Valid() && fresh(Repr - old(Repr))
      ensures contents == [value] + old(contents)
    {
      var n := new Node(value);
      LinkFront(n);
    }

    /** push_back(value): value becomes the last element. */
    method PushBack(value: T)
      requires Valid()
      modifies Repr
      ensures Valid() && fresh(Repr - old(Repr))
      ensures contents == old(contents) + [value]
    {
      var n := new Node(value);
      LinkBack(n);
    }

    /** pop_front(): drops the first element; does nothing on an empty list. */
    method PopFront()
      requires Valid()
      modifies Repr
      ensures Valid() && Repr == old(Repr)
      ensures nodes == if old(nodes) == [] then [] else old(nodes)[1..]
      ensures contents == if old(contents) == [] then [] else old(contents)[1..]
    {
      if head != null {
        ChainLinks(nodes, contents, head, tail, 0);
        if |nodes| > 1 {
          ChainLinks(nodes, contents, head, tail, 1);
        }
        head := head.next;
        if head != null {
          head.prev := null;
        } else {
          tail := null;
        }
        count := count - 1;
        nodes, contents := nodes[1..], contents[1..];
      }
    }

    /** pop_back(): drops the last element; does nothing on an empty list. */
    method PopBack()
      requires Valid()
      modifies Repr
      ensures Valid() && Repr == old(Repr)
      ensures nodes == if old(nodes) == [] then [] else old(nodes)[..|old(nodes)| - 1]
      ensures contents == if old(contents) == [] then [] else old(contents)[..|old(contents)| - 1]
    {
      if head != null {
        ChainLinks(nodes, contents, head, tail, |nodes| - 1);
        if |nodes| > 1 {
          ChainLinks(nodes, contents, head, tail, |nodes| - 2);
        }
        tail := tail.prev;
        if tail == null {
          head := null;
        } else {
          tail.next := null;
        }
        count := count - 1;
        nodes, contents := nodes[..|nodes| - 1], contents[..|contents| - 1];
      }
    }

    /**
     * insert(position, value): value goes in before the element at position,
     * or last when position is end(); the result points at the new element.
     */
    method Insert(position: Node?<T>, value: T) returns (it: Node<T>)
      requires Valid() && IsIterator(position)
      modifies Repr
      ensures Valid() && fresh(Repr - old(Repr)) && fresh(it)
      ensures position == null ==> contents == old(contents) + [value] && nodes == old(nodes) + [it]
      ensures forall k :: 0 <= k < |old(nodes)| && old(nodes)[k] == position ==>
                contents == InsertAt(old(contents), k, value) &&
                nodes == InsertAt(old(nodes), k, it)
    {
      var n := new Node(value);
      if head == null || position == null {
        LinkBack(n);
      } else if position == head {
        LinkFront(n);
      } else {
        ghost var k :| 0 <= k < |nodes| && nodes[k] == position;
        LinkBefore(position, n, k);
      }
      it := n;
    }

    /** Unlinks the k-th node, which is neither the first nor the last. */
    method Unlink(position: Node<T>, ghost k: nat)
      requires Valid() && 0 < k < |nodes| - 1 && nodes[k] == position
      modifies Repr
      ensures Valid() && Repr == old(Repr)
      ensures nodes == old(nodes)[..k] + old(nodes)[k + 1..]
      ensures contents == old(contents)[..k] + old(contents)[k + 1..]
    {
      ghost var ns, vs := nodes, contents;
      CutNode(ns, vs, head, tail, k, position);
      count := count - 1;
      nodes, contents := ns[..k] + ns[k + 1..], vs[..k] + vs[k + 1..];
    }

    /**
     * erase(position): removes the element at position and returns the
     * iterator after it; std::invalid_argument on an empty list or at end().
     * Removing the first element unlinks it as pop_front() does, so that
     * erasing the only element also resets tail.
     */
    method Erase(position: Node?<T>) returns (r: Result<Node?<T>>)
      requires Valid() && IsIterator(position)
      modifies Repr
      ensures Valid() && Repr == old(Repr)
      ensures position == null ==> r == Err(InvalidArgument) && contents == old(contents)
      ensures forall k :: 0 <= k < |old(nodes)| && old(nodes)[k] == position ==>
                contents == RemoveAt(old(contents), k) &&
                nodes == RemoveAt(old(nodes), k) &&
                r == Ok(if k < |nodes| then nodes[k] else null)
    {
      if head == null || position == null {
        return Err(InvalidArgument);
      }
      ghost var k :| 0 <= k < |nodes| && nodes[k] == position;
      assert forall j :: 0 <= j < |nodes| && nodes[j] == position ==> j == k;
      ChainLinks(nodes, contents, head, tail, k);
      var after := position.next;
      UnlinkAt(position, k);
      r := Ok(after);
    }

    /**
     * The unlinking step of erase: the first node goes as in pop_front(),
     * the last as in pop_back(), any other is cut out between its neighbours.
     */
    method UnlinkAt(position: Node<T>, ghost k: nat)
      requires Valid() && k < |nodes| && nodes[k] == position
      modifies Repr
      ensures Valid() && Repr == old(Repr)
      ensures nodes == RemoveAt(old(nodes), k) && contents == RemoveAt(old(contents), k)
    {
      if position == head {
        assert k == 0;
        PopFront();
      } else if position == tail {
        assert k == |nodes| - 1;
        PopBack();
      } else {
        Unlink(position, k);
      }
    }

    /**
     * erase(position) exactly as written: when the first element is removed
     * the new head's `prev` is cleared but `tail` is never touched, so erasing
     * the only element leaves head null and tail at the deleted node. That
     * state breaks the list: empty() then holds while tail is not null, and a
     * later push_back follows the stale tail and never sets head.
     */
    method EraseAsWritten(position: Node?<T>) returns (r: Result<Node?<T>>)
      requires Valid() && IsIterator(position)
      modifies Repr
      ensures position == null ==> r == Err(InvalidArgument) && Valid() && contents == old(contents)
      ensures position != null && |old(nodes)| == 1 ==>
                head == null && tail == old(tail) && tail != null && count == 0 && !Valid() && r == Ok(null)
      ensures |old(nodes)| != 1 ==> Valid()
      ensures |old(nodes)| != 1 ==>
                forall k :: 0 <= k < |old(nodes)| && old(nodes)[k] == position ==>
                  contents == RemoveAt(old(contents), k) &&
                  r == Ok(if k < |nodes| then nodes[k] else null)
    {
      if head == null || position == null {
        return Err(InvalidArgument);
      }
      ghost var k :| 0 <= k < |nodes| && nodes[k] == position;
      assert forall j :: 0 <= j < |nodes| && nodes[j] == position ==> j == k;
      ChainLinks(nodes, contents, head, tail, k);
      var after := position.next;
      if position == head {
        assert k == 0;
        UnlinkHeadAsWritten();
      } else {
        UnlinkAt(position, k);
      }
      r := Ok(after);
    }

    /** The first-element branch of erase as written: `tail` is left as it was. */
    method UnlinkHeadAsWritten()
      requires Valid() && nodes != []
      modifies Repr
      ensures Repr == old(Repr) && head == old(head).next && tail == old(tail) && count == old(count) - 1
      ensures nodes == old(nodes)[1..] && contents == old(contents)[1..]
      ensures |old(nodes)| == 1 ==> head == null
      ensures |old(nodes)| > 1 ==> Valid()
    {
      if |nodes| > 1 {
        ChainLinks(nodes, contents, head, tail, 1);
      }
      ChainLinks(nodes, contents, head, tail, 0);
      head := head.next;
      if head != null {
        head.prev := null;
      }
      count := count - 1;
      nodes, contents := nodes[1..], contents[1..];
    }

    /** Points this list at the chain `ns`; a step of swap and of the move operations. */
    method Adopt(h: Node?<T>, t: Node?<T>, c: nat, ghost ns: seq<Node<T>>, ghost vs: seq<T>, ghost rs: set<object>)
      requires Chain(ns, vs, h, t) && c == |ns|
      requires this in rs && forall i :: 0 <= i < |ns| ==> ns[i] in rs
      modifies this
      ensures Valid() && nodes == ns && contents == vs && Repr == rs
    {
      head, tail, count := h, t, c;
      nodes, contents, Repr := ns, vs, rs;
    }

    /** swap(other): the two lists exchange their elements. */
    method Swap(other: LList<T>)
      requires Valid() && other.Valid() && (other == this || Repr !! other.Repr)
      modifies this, other
      ensures Valid() && other.Valid()
      ensures contents == old(other.contents) && other.contents == old(contents)
      ensures other != this ==> Repr !! other.Repr
      ensures Repr + other.Repr == old(Repr + other.Repr)
    {
      if other != this {
        var h, t, c := head, tail, count;
        ghost var ns, vs, rs := nodes, contents, Repr;
        Adopt(other.head, other.tail, other.count, other.nodes, other.contents, {this} + (other.Repr - {other}));
        other.Adopt(h, t, c, ns, vs, {other} + (rs - {this}));
      }
    }

    /** clear(): no elements are left. */
    method Clear()
      requires Valid()
      modifies this
      ensures Valid() && Repr == old(Repr) && contents == []
    {
      head, tail, count := null, null, 0;
      nodes, contents := [], [];
    }

    /** operator=(const LList&): a deep copy of `other`; assigning a list to itself changes nothing. */
    method AssignCopy(other: LList<T>)
      requires Valid() && other.Valid() && (other == this || Repr !! other.Repr)
      modifies Repr
      ensures Valid() && fresh(Repr - old(Repr))
      ensures contents == old(other.contents)
      ensures other != this ==> other.Valid() && other.contents == old(other.contents) && Repr !! other.Repr
    {
      if other != this {
        Clear();
        var current := other.head;
        ghost var k := 0;
        while current != null
          invariant Valid() && fresh(Repr - old(Repr)) && Repr !! other.Repr
          invariant other.Valid() && other.contents == old(other.contents)
          invariant k <= |other.nodes|
          invariant current == if k < |other.nodes| then other.nodes[k] else null
          invariant contents == other.contents[..k]
          decreases |other.nodes| - k
        {
          PushBack(current.data);
          current := current.next;
          k := k + 1;
        }
      }
    }

    /** operator=(LList&&): takes over the nodes of `other`, which is left empty. */
    method AssignMove(other: LList<T>)
      requires Valid() && other.Valid() && (other == this || Repr !! other.Repr)
      modifies this, other
      ensures Valid() && other.Valid()
      ensures contents == old(other.contents)
      ensures other != this ==> other.contents == [] && Repr !! other.Repr
    {
      if other != this {
        Clear();
        Adopt(other.head, other.tail, other.count, other.nodes, other.contents, Repr + (other.Repr - {other}));
        other.Adopt(null, null, 0, [], [], {other});
      }
    }

    /** operator=(std::initializer_list): the list of the given values, in order. */
    method AssignList(values: seq<T>)
      requires Valid()
      modifies Repr
      ensures Valid() && fresh(Repr - old(Repr)) && contents == values
    {
      Clear();
      for i := 0 to |values|
        invariant Valid() && fresh(Repr - old(Repr))
        invariant contents == values[..i]
      {
        PushBack(values[i]);
      }
    }
  }

  /**
   * The insertion half of the list's insert-and-erase unit test: into [1, 3],
   * 0 goes in at begin(), 2 just after the first node and 4 at end(); each
   * insert returns an iterator to the new element.
   */
  method InsertScenario() returns (atBegin: Result<int>, inMiddle: Result<int>, atEnd: Result<int>, size: nat)
    ensures atBegin == Ok(0) && inMiddle == Ok(2) && atEnd == Ok(4) && size == 5
  {
    var list := new LList<int>.FromList([1, 3]);
    assert list.Begin() == list.nodes[0];
    var itBegin := list.Insert(list.Begin(), 0);
    assert list.contents == InsertAt([1, 3], 0, 0) == [0, 1, 3];
    var itMiddle, itEnd := InsertMiddleAndEnd(list, itBegin);
    atBegin, inMiddle, atEnd, size := list.Deref(itBegin), list.Deref(itMiddle), list.Deref(itEnd), list.Size();
  }

  /** The second and third inserts of the same test, into [0, 1, 3] whose first node is `itBegin`. */
  method InsertMiddleAndEnd(list: LList<int>, ghost itBegin: Node<int>) returns (itMiddle: Node<int>, itEnd: Node<int>)
    requires list.Valid() && list.contents == [0, 1, 3] && list.nodes[0] == itBegin
    modifies list.Repr
    ensures list.Valid() && list.contents == [0, 2, 1, 3, 4]
    ensures list.nodes[0] == itBegin && list.nodes[1] == itMiddle && list.nodes[4] == itEnd
  {
    var second := list.Next(list.Begin());
    assert second.value == list.nodes[1];
    itMiddle := list.Insert(second.value, 2);
    assert list.contents == InsertAt([0, 1, 3], 1, 2) == [0, 2, 1, 3];
    assert list.nodes[0] == itBegin && list.nodes[1] == itMiddle;
    itEnd := list.Insert(null, 4);
  }

  /**
   * The erasing half of the same test: from [0, 2, 1, 3, 4], erasing 2 and
   * then 0 yields iterators to 1 each time, erasing the last element leaves
   * two, and erasing at end() throws std::invalid_argument.
   */
  method EraseScenario() returns (afterMiddle: Result<int>, afterBegin: Result<int>, size: nat, atEnd: Result<Node?<int>>)
    ensures afterMiddle == Ok(1) && afterBegin == Ok(1) && size == 2
    ensures atEnd == Err(InvalidArgument)
  {
    var list := new LList<int>.FromList([0, 2, 1, 3, 4]);
    var itBegin := list.Begin();
    var second := list.Next(itBegin);
    var itMiddle, itEnd := second.value, list.tail;
    assert itBegin == list.nodes[0] && itMiddle == list.nodes[1] && itEnd == list.nodes[4];
    var r := list.Erase(itMiddle);
    assert list.contents == RemoveAt([0, 2, 1, 3, 4], 1) == [0, 1, 3, 4];
    afterMiddle := list.Deref(r.value);
    afterBegin, size, atEnd := EraseBeginAndEnd(list, itBegin, itEnd);
  }

  /** The rest of the same test, on [0, 1, 3, 4] whose first node is `itBegin` and last `itEnd`. */
  method EraseBeginAndEnd(list: LList<int>, itBegin: Node<int>, itEnd: Node<int>)
    returns (afterBegin: Result<int>, size: nat, atEnd: Result<Node?<int>>)
    requires list.Valid() && list.contents == [0, 1, 3, 4]
    requires itBegin == list.nodes[0] && itEnd == list.nodes[3]
    modifies list.Repr
    ensures afterBegin == Ok(1) && size == 2 && atEnd == Err(InvalidArgument)
  {
    var r := list.Erase(itBegin);
    assert list.contents == RemoveAt([0, 1, 3, 4], 0) == [1, 3, 4];
    afterBegin := list.Deref(r.value);
    assert itEnd == list.nodes[2];
    r := list.Erase(itEnd);
    size := list.Size();
    atEnd := list.Erase(null);
  }
}
