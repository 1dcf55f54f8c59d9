/** The list iterator: it keeps only a negative index, which stays put while the list changes
    at and before the current element. */
module ListIter {
  import opened LinkedList

  class Iter<T> {
    const list: List<T>
    var negIdx: int

    /** list_iter: one step before the head. */
    constructor (list: List<T>)
      requires list.Valid()
      ensures this.list == list && negIdx == -list.size - 1
    {
      this.list := list;
      negIdx := -1 * list.size - 1;
    }

    /** The place of the current element; -1 before the first. */
    ghost function Position(): int
      reads this, list
    {
      list.size + negIdx
    }

    ghost predicate Valid()
      reads this, list, list.nodes
    {
      list.Valid() && -1 <= Position() < list.size
    }

    method HasNext() returns (more: bool)
      requires Valid()
      ensures more <==> Position() + 1 < list.size
    {
      if list.size == 0 {
        return false;
      }
      var node := list.Get(negIdx);
      if node == null {
        return true;
      }
      list.Neighbours(Position() + 1);
      return node.next != null;
    }

    /** list_iter_next. Behind the last element the index has become zero and names the head again. */
    method Next() returns (node: Node?<T>)
      requires list.Valid()
      modifies this
      ensures negIdx == old(negIdx) + 1
      ensures node == if 0 <= negIdx < list.size then list.nodes[negIdx]
                      else if -list.size <= negIdx < 0 then list.nodes[list.size + negIdx] else null
      ensures old(Valid() && Position() + 1 < list.size) ==> Valid() && node == list.nodes[Position()]
    {
      negIdx := negIdx + 1;
      node := list.Get(negIdx);
    }

    /** list_iter_prepend: into the gap before the current element, which stays current. Before the
        head there is no such gap. */
    method Prepend(data: T)
      requires Valid()
      modifies list, list.NodeSet()
      ensures Valid() && fresh(list.NodeSet() - old(list.NodeSet()))
      ensures old(Position()) < 0 ==> list.nodes == old(list.nodes)
      ensures old(Position()) >= 0 ==> Position() == old(Position()) + 1
      ensures old(Position()) >= 0 ==> list.Inserted(old(list.nodes), old(Position()), data)
      ensures forall n :: n in old(list.nodes) ==> n.data == old(n.data)
    {
      list.Insert(negIdx - 1, data);
    }

    /** list_iter_append: behind the current element; the new one becomes current. */
    method Append(data: T)
      requires Valid()
      modifies list, list.NodeSet()
      ensures Valid() && Position() == old(Position()) + 1 && fresh(list.NodeSet() - old(list.NodeSet()))
      ensures list.Inserted(old(list.nodes), Position(), data)
      ensures forall n :: n in old(list.nodes) ==> n.data == old(n.data)
    {
      list.Insert(negIdx, data);
    }

    /** list_iter_remove: the element before becomes current. Before the head nothing is removed;
        removing the only element leaves a list that is not well formed. */
    method Remove()
      requires Valid()
      modifies list, list.NodeSet()
      ensures list.Valid() <==> old(Position()) < 0 || old(list.size) >= 2
      ensures old(Position()) < 0 ==> list.nodes == old(list.nodes) && Position() == old(Position())
      ensures old(Position()) >= 0 ==> list.Removed(old(list.nodes), old(Position())) && Position() == old(Position()) - 1
      ensures forall n :: n in old(list.nodes) ==> n.data == old(n.data)
    {
      var _, _ := list.Remove(negIdx);
    }
  }

  /** list_get__data: the first element that compares equal. */
  method GetData<T>(list: List<T>, equal: T -> bool) returns (node: Node?<T>, ghost at: nat)
    requires list.Valid()
    ensures node == At(list.nodes, at) && at <= |list.nodes|
    ensures node != null ==> equal(node.data)
    ensures forall i :: 0 <= i < at ==> !equal(list.nodes[i].data)
  {
    var it := new Iter(list);
    at := 0;
    var more := it.HasNext();
    while more
      invariant it.list == list && it.Valid() && fresh(it) && it.Position() == at - 1
      invariant more <==> at < |list.nodes|
      invariant forall i :: 0 <= i < at ==> !equal(list.nodes[i].data)
      decreases |list.nodes| - at
    {
      node := it.Next();
      if equal(node.data) {
        return node, at;
      }
      at := at + 1;
      more := it.HasNext();
    }
    node := null;
  }
}
