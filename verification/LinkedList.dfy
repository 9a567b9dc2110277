/** The doubly linked heap list of utils_list.c. */
module LinkedList {
  class Node<T> {
    var prev: Node?<T>
    var next: Node?<T>
    var val: T

    // list_node_new
    constructor (val: T)
      ensures this.val == val && prev == null && next == null
    {
      this.val, prev, next := val, null, null;
    }
  }

  datatype Direction = Head | Tail

  // The node at a position, or the null that ends the chain on either side.
  ghost function NodeAt<T>(s: seq<Node<T>>, i: int): Node?<T> { if 0 <= i < |s| then s[i] else null }

  ghost predicate Linked<T>(s: seq<Node<T>>, i: nat)
    requires i < |s|
    reads s`next, s`prev
  {
    s[i].next == NodeAt(s, i + 1) && s[i].prev == NodeAt(s, i - 1)
  }

  class List<T> {
    var head: Node?<T>
    var tail: Node?<T>
    var len: nat
    ghost var nodes: seq<Node<T>>
    ghost var repr: set<Node<T>>   // all nodes it has held

    ghost function At(i: int): Node?<T>
      reads this
    {
      NodeAt(nodes, i)
    }

    ghost predicate Valid()
      reads this, repr`next, repr`prev
    {
      && (forall i :: 0 <= i < |nodes| ==> nodes[i] in repr)
      && len == |nodes| && head == At(0) && tail == At(|nodes| - 1)
      && (forall i, j :: 0 <= i < j < |nodes| ==> nodes[i] != nodes[j])
      && forall i :: 0 <= i < |nodes| ==> Linked(nodes, i)
    }

    lemma Held(i: nat)
      requires Valid() && i < |nodes|
      ensures nodes[i] in repr
    {}

    lemma Distinct(i: nat, j: nat)
      requires Valid() && i < |nodes| && j < |nodes| && i != j
      ensures nodes[i] != nodes[j]
    {}

    // list_new
    constructor ()
      ensures Valid() && nodes == [] && repr == {}
    {
      head, tail, len, nodes, repr := null, null, 0, [], {};
    }

    // list_rpush
    method RPush(node: Node<T>)
      requires Valid() && node !in nodes
      modifies this, node`prev, node`next, repr`next
      ensures Valid() && nodes == old(nodes) + [node] && repr == old(repr) + {node}
    {
      if len != 0 {
        assert tail == nodes[|nodes| - 1];
        node.prev := tail;
        node.next := null;
        tail.next := node;
        tail := node;
      } else {
        head, tail := node, node;
        node.prev, node.next := null, null;
      }
      len := len + 1;
      ghost var was := nodes;
      nodes, repr := nodes + [node], repr + {node};
      forall i | 0 <= i < |nodes| ensures Linked(nodes, i) {
        if i < |was| { assert old(Linked(was, i)); }
      }
    }

    // list_lpush
    method LPush(node: Node<T>)
      requires Valid() && node !in nodes
      modifies this, node`prev, node`next, repr`prev
      ensures Valid() && nodes == [node] + old(nodes) && repr == old(repr) + {node}
    {
      if len != 0 {
        node.next := head;
        node.prev := null;
        head.prev := node;
        head := node;
      } else {
        head, tail := node, node;
        node.prev, node.next := null, null;
      }
      len := len + 1;
      ghost var was := nodes;
      nodes, repr := [node] + nodes, repr + {node};
      forall i | 0 <= i < |nodes| ensures Linked(nodes, i) {
        if i > 0 { assert old(Linked(was, i - 1)) && nodes[i] == was[i - 1]; }
      }
    }

    // list_rpop
    method RPop() returns (node: Node?<T>)
      requires Valid()
      modifies this, repr`next, repr`prev
      ensures Valid() && repr == old(repr)
      ensures old(nodes) == [] ==> node == null && nodes == []
      ensures old(nodes) != [] ==>
        node == old(nodes)[|old(nodes)| - 1] && nodes == old(nodes)[..|old(nodes)| - 1]
        && node.prev == null && node.next == null
    {
      if len == 0 { return null; }
      node := tail;
      assert Linked(nodes, |nodes| - 1);
      len := len - 1;
      if len != 0 {
        tail := node.prev;
        tail.next := null;
      } else {
        tail, head := null, null;
      }
      node.next, node.prev := null, null;
      ghost var was := nodes;
      nodes := nodes[..|nodes| - 1];
      forall i | 0 <= i < |nodes| ensures Linked(nodes, i) { assert old(Linked(was, i)); }
    }

    // list_lpop
    method LPop() returns (node: Node?<T>)
      requires Valid()
      modifies this, repr`next, repr`prev
      ensures Valid() && repr == old(repr)
      ensures old(nodes) == [] ==> node == null && nodes == []
      ensures old(nodes) != [] ==>
        node == old(nodes)[0] && nodes == old(nodes)[1..] && node.prev == null && node.next == null
    {
      if len == 0 { return null; }
      node := head;
      assert Linked(nodes, 0);
      len := len - 1;
      if len != 0 {
        head := node.next;
        head.prev := null;
      } else {
        tail, head := null, null;
      }
      node.next, node.prev := null, null;
      ghost var was := nodes;
      nodes := nodes[1..];
      forall i | 0 <= i < |nodes| ensures Linked(nodes, i) {
        assert nodes[i] == was[i + 1] && old(Linked(was, i + 1));
      }
    }

    // list_remove; the node is freed and keeps its stale links.
    method Remove(node: Node<T>, ghost k: nat)
      requires Valid() && k < |nodes| && nodes[k] == node
      modifies this, repr`next, repr`prev
      ensures Valid() && repr == old(repr) && nodes == old(nodes)[..k] + old(nodes)[k + 1..]
    {
      assert Linked(nodes, k);
      if node.prev != null { node.prev.next := node.next; } else { head := node.next; }
      if node.next != null { node.next.prev := node.prev; } else { tail := node.prev; }
      len := len - 1;
      ghost var was := nodes;
      nodes := nodes[..k] + nodes[k + 1..];
      forall i | 0 <= i < |nodes| ensures Linked(nodes, i) {
        var j := if i < k then i else i + 1;
        assert nodes[i] == was[j] && old(Linked(was, j));
      }
    }

    // list_iterator_new
    method Iterate(direction: Direction) returns (it: Iterator<T>)
      ensures fresh(it) && it.direction == direction && it.next == if direction == Head then head else tail
    {
      it := new Iterator(if direction == Head then head else tail, direction);
    }

    // list_find: the first node whose value matches.
    method Find(matches: T -> bool) returns (node: Node?<T>)
      requires Valid()
      ensures node == null ==> forall i :: 0 <= i < |nodes| ==> !matches(nodes[i].val)
      ensures node != null ==> node in nodes && matches(node.val)
      ensures forall i, j :: 0 <= j < i < |nodes| && nodes[i] == node ==> !matches(nodes[j].val)
    {
      var it := Iterate(Head);
      ghost var i := 0;
      node := it.Next();
      assert node != null ==> Linked(nodes, 0);
      while node != null
        invariant i <= |nodes| && node == At(i) && (node != null ==> it.next == At(i + 1))
        invariant it.direction == Head && fresh(it)
        invariant forall j :: 0 <= j < i ==> !matches(nodes[j].val)
        decreases |nodes| - i
      {
        if matches(node.val) { return; }
        node := it.Next();
        i := i + 1;
        assert node != null ==> Linked(nodes, i);
      }
    }

    // list_at: from the tail for negative indices.
    method Nth(index: int) returns (node: Node?<T>)
      requires Valid()
      ensures node == At(if index >= 0 then index else if |nodes| + index >= 0 then |nodes| + index else -1)
    {
      var direction, steps := Head, index;
      if index < 0 {
        direction, steps := Tail, -index - 1;
      }
      if steps >= len { return null; }
      var it := Iterate(direction);
      node := Advance(it, steps);
    }

    // One step, and then some more.
    method Advance(it: Iterator<T>, steps: nat) returns (node: Node?<T>)
      requires Valid() && steps < |nodes|
      requires it.next == (if it.direction == Head then head else tail)
      modifies it
      ensures node == At(if it.direction == Head then steps else |nodes| - 1 - steps)
    {
      node := it.Next();
      ghost var i := if it.direction == Head then 0 else |nodes| - 1;
      assert Linked(nodes, i);
      for done := 0 to steps
        invariant i == if it.direction == Head then done else |nodes| - 1 - done
        invariant node == At(i) && it.next == At(if it.direction == Head then i + 1 else i - 1)
      {
        node := it.Next();
        i := if it.direction == Head then i + 1 else i - 1;
        assert Linked(nodes, i);
      }
    }
  }

  class Iterator<T> {
    var next: Node?<T>
    const direction: Direction

    // list_iterator_new_from_node
    constructor (next: Node?<T>, direction: Direction)
      ensures this.next == next && this.direction == direction
    {
      this.next, this.direction := next, direction;
    }

    // list_iterator_next
    method Next() returns (curr: Node?<T>)
      modifies this
      ensures curr == old(next)
      ensures next == if curr == null then null else if direction == Head then curr.next else curr.prev
    {
      curr := next;
      if curr != null {
        next := if direction == Head then curr.next else curr.prev;
      }
    }
  }
}
