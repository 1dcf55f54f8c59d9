/** list.c: a doubly linked list reached through a pointer-to-pointer cursor, counted from the
    head by indices 0, 1, ... and from the tail by indices -1, -2, ... */
module LinkedList {
  import opened Wrappers

  class Node<T> {
    var data: T
    var prev: Node?<T>
    var next: Node?<T>

    constructor (data: T)
      ensures this.data == data && prev == null && next == null
    {
      this.data := data;
      prev, next := null, null;
    }
  }

  /** list_node_t **: the field a cursor points to. */
  datatype Cursor<T> = Head | NextOf(node: Node<T>) | Tail | PrevOf(node: Node<T>)

  /** Element i, or null on either side of the list. */
  function At<T>(nodes: seq<Node<T>>, i: int): Node?<T> {
    if 0 <= i < |nodes| then nodes[i] else null
  }

  ghost predicate Distinct<T>(nodes: seq<Node<T>>) {
    forall i, j :: 0 <= i < j < |nodes| ==> nodes[i] != nodes[j]
  }

  /** The place, counted from the head, that an index names: -1 is the last of n. */
  function Place(index: int, n: nat): int {
    if index >= 0 then index else n + index
  }

  /** Where an insertion puts the new element: before a place counted from the head, after a
      place counted from the tail. Out of range there is none. */
  function InsertPlace(index: int, n: nat): Option<nat> {
    var p := if index >= 0 then index else n + index + 1;
    if 0 <= p <= n then Some(p) else None
  }

  /** Both directions name the same gaps: inserting at i is inserting at i - n - 1. */
  lemma InsertPlacesAgree(i: nat, n: nat)
    requires i <= n
    ensures InsertPlace(i, n) == InsertPlace(i - n - 1, n) == Some(i)
  {
  }

  class List<T> {
    var head: Node?<T>
    var tail: Node?<T>
    var size: int
    ghost var nodes: seq<Node<T>>

    /** The field that leads from the left into gap i of the list ns, */
    ghost function Forward(ns: seq<Node<T>>, i: nat): Node?<T>
      requires i <= |ns|
      reads this`head, this`tail, ns
    {
      if i == 0 then head else ns[i - 1].next
    }

    /** and the one that leads into it from the right. */
    ghost function Backward(ns: seq<Node<T>>, i: nat): Node?<T>
      requires i <= |ns|
      reads this`head, this`tail, ns
    {
      if i == |ns| then tail else ns[i].prev
    }

    /** Across gap i each field leads to the node on the other side, or to null at an end. */
    ghost predicate Bridged(ns: seq<Node<T>>, i: nat)
      requires i <= |ns|
      reads this`head, this`tail, ns
    {
      Forward(ns, i) == At(ns, i) && Backward(ns, i) == At(ns, i - 1)
    }

    /** The picture in list.h: next and prev chain the same nodes in opposite directions. */
    ghost predicate Valid()
      reads this, nodes
    {
      && size == |nodes|
      && Distinct(nodes)
      && (forall i: nat :: i <= |nodes| ==> Bridged(nodes, i))
    }

    /** The nodes as a footprint. */
    ghost function NodeSet(): set<object>
      reads this
    {
      set n | n in nodes
    }

    ghost function Contents(): (s: seq<T>)
      reads this, nodes
      ensures |s| == |nodes|
    {
      seq(|nodes|, i requires 0 <= i < |nodes| reads this, nodes => nodes[i].data)
    }

    constructor ()
      ensures Valid() && nodes == []
    {
      head, tail, size, nodes := null, null, 0, [];
    }

    /** The node a cursor of the list points to. */
    function Deref(c: Cursor<T>): Node?<T>
      reads this, if c.NextOf? || c.PrevOf? then {c.node} else {}
    {
      match c
      case Head => head
      case NextOf(n) => n.next
      case Tail => tail
      case PrevOf(n) => n.prev
    }

    /** The field through which a walk from the head, or from the tail, reaches place p. */
    ghost predicate Reaches(c: Cursor<T>, p: int, forward: bool)
      reads this
    {
      if forward then
        0 <= p <= |nodes| && c == if p == 0 then Head else NextOf(nodes[p - 1])
      else
        -1 <= p < |nodes| && c == if p == |nodes| - 1 then Tail else PrevOf(nodes[p + 1])
    }

    lemma Neighbours(i: nat)
      requires Valid() && i <= |nodes|
      ensures i == 0 ==> head == At(nodes, 0)
      ensures i == |nodes| ==> tail == At(nodes, |nodes| - 1)
      ensures i < |nodes| ==> nodes[i].prev == At(nodes, i - 1)
      ensures i > 0 ==> nodes[i - 1].next == At(nodes, i)
    {
      assert Bridged(nodes, i);
    }

    /** list_cursor: null when the walk runs off the list before the last step. */
    method CursorAt(index: int) returns (c: Option<Cursor<T>>)
      requires Valid()
      ensures c.Some? <==> (if index >= 0 then index <= size else -index <= size + 1)
      ensures c.Some? && index >= 0 ==>
                c.value == (if index == 0 then Head else NextOf(nodes[index - 1])) && Deref(c.value) == At(nodes, index)
      ensures c.Some? && index < 0 ==>
                c.value == (if index == -1 then Tail else PrevOf(nodes[size + index + 1]))
                && Deref(c.value) == At(nodes, size + index)
    {
      if index >= 0 {
        var cur: Cursor<T> := Head;
        Neighbours(0);
        for i := 0 to index
          invariant i <= size && Reaches(cur, i, true) && Deref(cur) == At(nodes, i)
        {
          var node := Deref(cur);
          if node == null {
            return None;
          }
          Neighbours(i + 1);
          cur := NextOf(node);
        }
        return Some(cur);
      } else {
        var cur: Cursor<T> := Tail;
        var i := -1;
        Neighbours(size);
        while i > index
          invariant index <= i && -i <= size + 1
          invariant Reaches(cur, size + i, false) && Deref(cur) == At(nodes, size + i)
          decreases i - index
        {
          var node := Deref(cur);
          if node == null {
            return None;
          }
          Neighbours(size + i);
          cur := PrevOf(node);
          i := i - 1;
        }
        return Some(cur);
      }
    }

    /** list_get. */
    method Get(index: int) returns (node: Node?<T>)
      requires Valid()
      ensures 0 <= index < size ==> node == nodes[index]
      ensures -size <= index < 0 ==> node == nodes[size + index]
      ensures index >= size || index < -size ==> node == null
    {
      var c := CursorAt(index);
      if c.None? {
        return null;
      }
      node := Deref(c.value);
    }

    /** *cursor = node. */
    method Assign(c: Cursor<T>, node: Node?<T>)
      modifies this`head, this`tail, if c.NextOf? || c.PrevOf? then {c.node} else {}
      ensures head == if c.Head? then node else old(head)
      ensures tail == if c.Tail? then node else old(tail)
      ensures c.NextOf? ==> c.node.next == node && c.node.prev == old(c.node.prev) && c.node.data == old(c.node.data)
      ensures c.PrevOf? ==> c.node.prev == node && c.node.next == old(c.node.next) && c.node.data == old(c.node.data)
    {
      match c {
        case Head => head := node;
        case NextOf(n) => n.next := node;
        case Tail => tail := node;
        case PrevOf(n) => n.prev := node;
      }
    }

    /** The links after tmp has been put into gap p; nodes is still the old sequence. */
    ghost predicate Spliced(tmp: Node<T>, p: nat)
      reads this, nodes, tmp
    {
      && p <= |nodes| && tmp !in nodes
      && tmp.prev == At(nodes, p - 1) && tmp.next == At(nodes, p)
      && Forward(nodes, p) == tmp == Backward(nodes, p)
      && (forall i: nat :: i <= |nodes| && i != p ==> Bridged(nodes, i))
    }

    /** The cursor points to a node: the new node goes between it and its far neighbour. */
    method SpliceAtNode(index: int, cursor: Cursor<T>, cur: Node<T>, tmp: Node<T>, ghost p: nat)
      requires Valid() && tmp !in nodes && InsertPlace(index, size) == Some(p)
      requires Reaches(cursor, Place(index, size), index >= 0) && Deref(cursor) == cur == At(nodes, Place(index, size))
      modifies this`head, this`tail, NodeSet(), tmp
      ensures Spliced(tmp, p) && tmp.data == old(tmp.data)
      ensures forall n :: n in nodes ==> n.data == old(n.data)
    {
      Neighbours(p);
      if index >= 0 {
        tmp.prev := cur.prev;
        tmp.next := cur;
        cur.prev := tmp;
        Assign(cursor, tmp);
      } else {
        tmp.next := cur.next;
        tmp.prev := cur;
        cur.next := tmp;
        Assign(cursor, tmp);
      }
      OtherGapsKept(p);
    }

    /** The cursor points to null: the new node is put at that end. */
    method SpliceAtNull(index: int, cursor: Cursor<T>, tmp: Node<T>, ghost p: nat)
      requires Valid() && tmp !in nodes && InsertPlace(index, size) == Some(p)
      requires Reaches(cursor, Place(index, size), index >= 0) && Deref(cursor) == null == At(nodes, Place(index, size))
      requires tmp.prev == null == tmp.next
      modifies this`head, this`tail, NodeSet(), tmp
      ensures Spliced(tmp, p) && tmp.data == old(tmp.data)
      ensures forall n :: n in nodes ==> n.data == old(n.data)
    {
      Neighbours(p);
      Neighbours(0);
      Neighbours(size);
      Assign(cursor, tmp);
      if index >= 0 {
        if tail != null {
          tmp.prev := tail;
          tail.next := tmp;
        }
        tail := tmp;
      } else {
        if head != null {
          tmp.next := head;
          head.prev := tmp;
        }
        head := tmp;
      }
      OtherGapsKept(p);
    }

    /** If only the two fields into gap p have changed, every other gap is as it was. */
    twostate lemma OtherGapsKept(p: nat)
      requires old(Valid()) && nodes == old(nodes) && p <= |nodes|
      requires p == 0 || head == old(head)
      requires p == |nodes| || tail == old(tail)
      requires forall k: nat :: k < |nodes| && k != p ==> nodes[k].prev == old(nodes[k].prev)
      requires forall k: nat :: k < |nodes| && k != p - 1 ==> nodes[k].next == old(nodes[k].next)
      ensures forall i: nat :: i <= |nodes| && i != p ==> Bridged(nodes, i)
    {
      forall i: nat | i <= |nodes| && i != p
        ensures Bridged(nodes, i)
      {
        assert old(Bridged(nodes, i));
      }
    }

    /** Splitting gap p in two around tmp leaves every gap of the new list bridged. */
    lemma SplicedBridges(tmp: Node<T>, p: nat, nn: seq<Node<T>>, i: nat)
      requires Spliced(tmp, p) && nn == nodes[..p] + [tmp] + nodes[p..] && i <= |nn|
      ensures Bridged(nn, i)
    {
      if i < p {
        assert Bridged(nodes, i);
      } else if i > p + 1 {
        assert Bridged(nodes, i - 1);
      }
    }

    lemma SplicedDistinct(tmp: Node<T>, p: nat, nn: seq<Node<T>>)
      requires p <= |nodes| && tmp !in nodes && Distinct(nodes) && nn == nodes[..p] + [tmp] + nodes[p..]
      ensures Distinct(nn)
    {
      forall i | 0 <= i < |nn|
        ensures nn[i] == if i < p then nodes[i] else if i == p then tmp else nodes[i - 1]
      {
      }
    }

    /** The new node is counted in. */
    method Adopt(tmp: Node<T>, ghost p: nat)
      requires Spliced(tmp, p) && Distinct(nodes) && size == |nodes|
      modifies this`size, this`nodes
      ensures Valid() && Inserted(old(nodes), p, tmp.data) && nodes[p] == tmp
    {
      ghost var nn := nodes[..p] + [tmp] + nodes[p..];
      SplicedDistinct(tmp, p, nn);
      forall i: nat | i <= |nn|
        ensures Bridged(nn, i)
      {
        SplicedBridges(tmp, p, nn, i);
      }
      size := size + 1;
      nodes := nn;
    }

    /** list_insert: out of range it does nothing; else the new node takes its place between
        its two neighbours, whichever way it was reached. */
    method Insert(index: int, data: T)
      requires Valid()
      modifies this, NodeSet()
      ensures Valid()
      ensures 0 <= index <= old(size) ==>
                |nodes| > index && fresh(nodes[index]) && nodes[index].data == data
                && nodes == old(nodes)[..index] + [nodes[index]] + old(nodes)[index..]
      ensures -old(size) - 1 <= index < 0 ==>
                |nodes| > old(size) + index + 1 && fresh(nodes[old(size) + index + 1])
                && nodes[old(size) + index + 1].data == data
                && nodes == old(nodes)[..old(size) + index + 1] + [nodes[old(size) + index + 1]]
                            + old(nodes)[old(size) + index + 1..]
      ensures index > old(size) || index < -old(size) - 1 ==> nodes == old(nodes)
      ensures fresh(NodeSet() - old(NodeSet()))
      ensures forall n :: n in old(nodes) ==> n.data == old(n.data)
    {
      var c := CursorAt(index);
      if c.None? {
        return;
      }
      hide *;
      ghost var tmp := InsertAt(index, c.value, data, if index >= 0 then index else size + index + 1);
    }

    /** What list_insert does at its cursor. */
    method InsertAt(index: int, c: Cursor<T>, data: T, ghost p: nat) returns (ghost tmp: Node<T>)
      requires Valid() && InsertPlace(index, size) == Some(p)
      requires Reaches(c, Place(index, size), index >= 0) && Deref(c) == At(nodes, Place(index, size))
      modifies this, NodeSet()
      ensures Valid() && fresh(tmp) && tmp.data == data
      ensures p <= |old(nodes)| && nodes == old(nodes)[..p] + [tmp] + old(nodes)[p..]
      ensures fresh(NodeSet() - old(NodeSet()))
      ensures forall n :: n in old(nodes) ==> n.data == old(n.data)
    {
      var node := new Node(data);
      var cur := Deref(c);
      if cur != null {
        SpliceAtNode(index, c, cur, node, p);
      } else {
        SpliceAtNull(index, c, node, p);
      }
      Adopt(node, p);
      tmp := node;
    }

    /** One node holding data stands at place p of what used to be ns. */
    ghost predicate Inserted(ns: seq<Node<T>>, p: nat, data: T)
      reads this, nodes
    {
      p <= |ns| && |nodes| == |ns| + 1 && nodes[p].data == data && nodes == ns[..p] + [nodes[p]] + ns[p..]
    }

    /** The links after the node at place p has been bypassed. */
    ghost predicate Bypassed(p: nat)
      reads this, nodes
    {
      && p < |nodes|
      && Forward(nodes, p) == At(nodes, p + 1) && Backward(nodes, p + 1) == At(nodes, p - 1)
      && (forall i: nat :: i <= |nodes| && i != p && i != p + 1 ==> Bridged(nodes, i))
    }

    /** Merging gaps p and p + 1 leaves every gap of the shorter list bridged. */
    lemma BypassedBridges(p: nat, nn: seq<Node<T>>, i: nat)
      requires Bypassed(p) && nn == nodes[..p] + nodes[p + 1..] && i <= |nn|
      ensures Bridged(nn, i)
    {
      if i < p {
        assert Bridged(nodes, i);
      } else if i > p {
        assert Bridged(nodes, i + 1);
      }
    }

    lemma WithoutDistinct(p: nat, nn: seq<Node<T>>)
      requires p < |nodes| && Distinct(nodes) && nn == nodes[..p] + nodes[p + 1..]
      ensures Distinct(nn)
    {
      forall i | 0 <= i < |nn|
        ensures nn[i] == if i < p then nodes[i] else nodes[i + 1]
      {
      }
    }

    /** If only the field into gap p from the left and the field into gap p + 1 from the right
        have changed, every other gap is as it was. */
    twostate lemma OuterGapsKept(p: nat)
      requires old(Valid()) && nodes == old(nodes) && p < |nodes|
      requires p == 0 || head == old(head)
      requires p == |nodes| - 1 || tail == old(tail)
      requires forall k: nat :: k < |nodes| && k != p + 1 ==> nodes[k].prev == old(nodes[k].prev)
      requires forall k: nat :: k < |nodes| && k != p - 1 ==> nodes[k].next == old(nodes[k].next)
      ensures forall i: nat :: i <= |nodes| && i != p && i != p + 1 ==> Bridged(nodes, i)
    {
      forall i: nat | i <= |nodes| && i != p && i != p + 1
        ensures Bridged(nodes, i)
      {
        assert old(Bridged(nodes, i));
      }
    }

    /** The pointer updates of list_remove. Counted from the head, the only node of a list has no
        predecessor to update: the statement would follow a null pointer. Counted from the
        tail, it is bypassed on the left only, and tail keeps pointing to it. */
    method Bypass(index: int, cursor: Cursor<T>, cur: Node<T>, ghost p: nat) returns (fault: bool)
      requires Valid() && p < |nodes| && Place(index, size) == p
      requires Reaches(cursor, p, index >= 0) && Deref(cursor) == cur == nodes[p]
      modifies this`head, this`tail, NodeSet()
      ensures fault <==> index >= 0 && size == 1
      ensures size >= 2 ==> Bypassed(p)
      ensures size == 1 && !fault ==> head == null && tail == cur
      ensures fault ==> tail == null
      ensures forall n :: n in nodes ==> n.data == old(n.data)
    {
      fault := false;
      Neighbours(p);
      Neighbours(p + 1);
      if index >= 0 {
        var next := cur.next;
        if next != null {
          next.prev := cur.prev;
          Assign(cursor, cur.next);
        } else {
          tail := cur.prev;
          if cur.prev == null {
            fault := true;
          } else {
            var prev := cur.prev;
            prev.next := null;
          }
        }
      } else {
        var prev := cur.prev;
        if prev != null {
          prev.next := cur.next;
          Assign(cursor, cur.prev);
        } else {
          head := cur.next;
          if cur.next != null {
            var next := cur.next;
            next.prev := null;
          }
        }
      }
      if size >= 2 {
        OuterGapsKept(p);
      }
    }

    /** list_remove. The list keeps its shape if and only if it had at least two nodes. */
    method Remove(index: int) returns (node: Node?<T>, fault: bool)
      requires Valid()
      modifies this, NodeSet()
      ensures fault <==> index == 0 && old(size) == 1
      ensures 0 <= index < old(size) ==> node == old(nodes)[index]
      ensures -old(size) <= index < 0 ==> node == old(nodes)[old(size) + index]
      ensures index >= old(size) || index < -old(size) ==> node == null
      ensures node == null ==> Valid() && nodes == old(nodes)
      ensures node != null ==> (Valid() <==> old(size) >= 2)
      ensures 0 <= index < old(size) && !fault ==> nodes == old(nodes)[..index] + old(nodes)[index + 1..]
      ensures -old(size) <= index < 0 ==>
                nodes == old(nodes)[..old(size) + index] + old(nodes)[old(size) + index + 1..]
      ensures size == |nodes|
      ensures forall n :: n in old(nodes) ==> n.data == old(n.data)
    {
      fault := false;
      var c := CursorAt(index);
      if c.None? {
        return null, false;
      }
      node := Deref(c.value);
      if node == null {
        return;
      }
      ghost var p := Place(index, size);
      fault := Bypass(index, c.value, node, p);
      if fault {
        assert !Bridged(nodes, 1);
        return;
      }
      ghost var nn := nodes[..p] + nodes[p + 1..];
      WithoutDistinct(p, nn);
      if size >= 2 {
        forall i: nat | i <= |nn|
          ensures Bridged(nn, i)
        {
          BypassedBridges(p, nn, i);
        }
      }
      size := size - 1;
      nodes := nn;
      if size == 0 {
        EmptyIsBridged();
      }
    }

    lemma EmptyIsBridged()
      requires nodes == []
      ensures Bridged(nodes, 0) <==> head == null && tail == null
    {
    }

    ghost predicate Removed(ns: seq<Node<T>>, p: int)
      reads this
    {
      0 <= p < |ns| && nodes == ns[..p] + ns[p + 1..]
    }
  }
}
