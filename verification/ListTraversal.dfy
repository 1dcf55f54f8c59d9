/** Traversal under mutation: the loop of list_iter_has_next and list_iter_next whose body may
    call list_iter_prepend, list_iter_append and list_iter_remove as often as it likes, in any
    order. */
module ListTraversal {
  import opened LinkedList
  import opened ListIter

  /** One call of the loop body. */
  datatype Edit<T> = Prepend(data: T) | Append(data: T) | Remove

  /** What a call makes of the elements up to the current one, which is the last of them: an
      appended element becomes current, and so does the one before a removed one. Without a
      current element, once all of them are removed, only an append does anything. */
  function Edited<T>(done: seq<T>, e: Edit<T>): seq<T> {
    var n := |done|;
    match e
    case Prepend(x) => if n == 0 then done else done[..n - 1] + [x] + [done[n - 1]]
    case Append(x) => done + [x]
    case Remove => if n == 0 then done else done[..n - 1]
  }

  function EditedAll<T>(done: seq<T>, edits: seq<Edit<T>>): seq<T> {
    if edits == [] then done else Edited(EditedAll(done, edits[..|edits| - 1]), edits[|edits| - 1])
  }

  /** The elements up to the current one after some turns: in each the next element becomes
      current and the calls of the turn are made. */
  function Result<T>(turns: seq<seq<Edit<T>>>, xs: seq<T>): seq<T>
    requires |turns| == |xs|
  {
    if turns == [] then [] else
    var n := |turns| - 1;
    EditedAll(Result(turns[..n], xs[..n]) + [xs[n]], turns[n])
  }

  /** The call does not remove the only element there is. */
  predicate MayEdit<T>(done: nat, e: Edit<T>, rest: nat) {
    e.Remove? ==> done == 0 || done + rest >= 2
  }

  ghost predicate MayEditAll<T>(done: seq<T>, edits: seq<Edit<T>>, rest: nat) {
    forall j :: 0 <= j < |edits| ==> MayEdit(|EditedAll(done, edits[..j])|, edits[j], rest)
  }

  /** No call of the traversal does. */
  ghost predicate NeverEmptied<T>(turns: seq<seq<Edit<T>>>, xs: seq<T>)
    requires |turns| == |xs|
  {
    forall i :: 0 <= i < |turns| ==> MayEditAll(Result(turns[..i], xs[..i]) + [xs[i]], turns[i], |turns| - i - 1)
  }

  lemma ResultStep<T>(turns: seq<seq<Edit<T>>>, xs: seq<T>, i: nat)
    requires |turns| == |xs| && i < |turns|
    ensures Result(turns[..i + 1], xs[..i + 1]) == EditedAll(Result(turns[..i], xs[..i]) + [xs[i]], turns[i])
  {
    assert turns[..i + 1][..i] == turns[..i] && xs[..i + 1][..i] == xs[..i];
  }

  lemma EditedStep<T>(done: seq<T>, edits: seq<Edit<T>>, j: nat)
    requires j < |edits|
    ensures EditedAll(done, edits[..j + 1]) == Edited(EditedAll(done, edits[..j]), edits[j])
  {
    assert edits[..j + 1][..j] == edits[..j];
  }

  function Prepends<T>(xs: seq<T>): seq<Edit<T>> {
    seq(|xs|, i requires 0 <= i < |xs| => Prepend(xs[i]))
  }

  function Appends<T>(xs: seq<T>): seq<Edit<T>> {
    seq(|xs|, i requires 0 <= i < |xs| => Append(xs[i]))
  }

  lemma {:induction false} EditedConcat<T>(done: seq<T>, a: seq<Edit<T>>, b: seq<Edit<T>>)
    ensures EditedAll(done, a + b) == EditedAll(EditedAll(done, a), b)
  {
    hide Edited;
    if b == [] {
      assert a + b == a;
    } else {
      var n := |b| - 1;
      assert (a + b)[..|a| + n] == a + b[..n];
      EditedConcat(done, a, b[..n]);
    }
  }

  lemma {:induction false} PrependedAll<T>(done: seq<T>, x: T, xs: seq<T>)
    ensures EditedAll(done + [x], Prepends(xs)) == done + xs + [x]
  {
    if xs == [] {
      assert done + xs == done;
    } else {
      var n := |xs| - 1;
      assert Prepends(xs)[..n] == Prepends(xs[..n]);
      PrependedAll(done, x, xs[..n]);
      assert (done + xs[..n] + [x])[..|done| + n] == done + xs[..n];
    }
  }

  lemma {:induction false} AppendedAll<T>(done: seq<T>, xs: seq<T>)
    ensures EditedAll(done, Appends(xs)) == done + xs
  {
    if xs == [] {
      assert done + xs == done;
    } else {
      var n := |xs| - 1;
      assert Appends(xs)[..n] == Appends(xs[..n]);
      AppendedAll(done, xs[..n]);
    }
  }

  /** A turn that prepends, keeps or removes its element and then appends leaves the inserted
      elements in order around the place of that element. */
  lemma TurnInOrder<T>(done: seq<T>, x: T, before: seq<T>, keep: bool, after: seq<T>)
    ensures EditedAll(done + [x], Prepends(before) + (if keep then [] else [Remove]) + Appends(after))
         == done + before + (if keep then [x] else []) + after
  {
    var middle := if keep then [] else [Remove];
    EditedConcat(done + [x], Prepends(before) + middle, Appends(after));
    EditedConcat(done + [x], Prepends(before), middle);
    PrependedAll(done, x, before);
    var left := done + before + if keep then [x] else [];
    assert EditedAll(done + before + [x], middle) == left by {
      assert keep ==> done + before + [x] == left;
      assert !keep ==> middle[..0] == [] && (done + before + [x])[..|done + before|] == left;
    }
    AppendedAll(left, after);
  }

  /** A turn of the usual kind: what it inserts before and behind its element, which it keeps or
      removes. */
  datatype Turn<T> = Turn(before: seq<T>, keep: bool, after: seq<T>)

  function Calls<T>(t: Turn<T>): seq<Edit<T>> {
    Prepends(t.before) + (if t.keep then [] else [Remove]) + Appends(t.after)
  }

  /** Each element with its insertions around it, in the order of the elements. */
  function InOrder<T>(turns: seq<Turn<T>>, xs: seq<T>): seq<T>
    requires |turns| == |xs|
  {
    if turns == [] then [] else
    turns[0].before + (if turns[0].keep then [xs[0]] else []) + turns[0].after + InOrder(turns[1..], xs[1..])
  }

  lemma {:induction false} InOrderSnoc<T>(turns: seq<Turn<T>>, xs: seq<T>, t: Turn<T>, x: T)
    requires |turns| == |xs|
    ensures InOrder(turns + [t], xs + [x]) == InOrder(turns, xs) + t.before + (if t.keep then [x] else []) + t.after
  {
    if turns == [] {
      assert ([t] + [])[1..] == [] && turns + [t] == [t] && xs + [x] == [x];
    } else {
      assert (turns + [t])[1..] == turns[1..] + [t] && (xs + [x])[1..] == xs[1..] + [x];
      InOrderSnoc(turns[1..], xs[1..], t, x);
    }
  }

  /** A traversal of usual turns leaves exactly the kept and the inserted elements, in order. */
  lemma {:induction false} ResultInOrder<T>(turns: seq<Turn<T>>, xs: seq<T>)
    requires |turns| == |xs|
    ensures Result(seq(|turns|, i requires 0 <= i < |turns| => Calls(turns[i])), xs) == InOrder(turns, xs)
  {
    hide EditedAll, InOrder, Calls;
    var calls := seq(|turns|, i requires 0 <= i < |turns| => Calls(turns[i]));
    if turns == [] {
      InOrderNone<T>();
    } else {
      var n := |turns| - 1;
      var fewer := seq(n, i requires 0 <= i < n => Calls(turns[..n][i]));
      assert calls[..n] == fewer && calls[n] == Calls(turns[n]);
      ResultInOrder(turns[..n], xs[..n]);
      CallsInOrder(Result(fewer, xs[..n]), xs[n], turns[n]);
      InOrderSnoc(turns[..n], xs[..n], turns[n], xs[n]);
      assert turns[..n] + [turns[n]] == turns && xs[..n] + [xs[n]] == xs;
    }
  }

  lemma InOrderNone<T>()
    ensures InOrder<T>([], []) == []
  {
  }

  lemma CallsInOrder<T>(done: seq<T>, x: T, t: Turn<T>)
    ensures EditedAll(done + [x], Calls(t)) == done + t.before + (if t.keep then [x] else []) + t.after
  {
    TurnInOrder(done, x, t.before, t.keep, t.after);
  }

  /** The data of a run of nodes. */
  ghost function Data<T>(ns: seq<Node<T>>): (s: seq<T>)
    reads ns
    ensures |s| == |ns|
  {
    seq(|ns|, i requires 0 <= i < |ns| reads ns => ns[i].data)
  }

  /** The list is done + rest, and the last of done is current. */
  ghost predicate Split<T>(it: Iter<T>, done: seq<Node<T>>, rest: seq<Node<T>>)
    reads it, it.list, it.list.nodes
  {
    it.Valid() && it.list.nodes == done + rest && it.Position() == |done| - 1
  }

  method DoPrepend<T>(it: Iter<T>, x: T, ghost done0: seq<Node<T>>, ghost rest: seq<Node<T>>)
    returns (ghost done: seq<Node<T>>)
    requires Split(it, done0, rest)
    modifies it.list, it.list.NodeSet()
    ensures Split(it, done, rest)
    ensures forall n :: n in it.list.nodes ==> n in old(it.list.nodes) || fresh(n)
    ensures Data(done) == Edited(old(Data(done0)), Prepend(x))
    ensures forall n :: n in old(it.list.nodes) ==> n.data == old(n.data)
  {
    hide List.Bridged, Distinct;
    ghost var n := |done0|;
    it.Prepend(x);
    if n == 0 {
      done := done0;
    } else {
      done := it.list.nodes[..n + 1];
      assert done == done0[..n - 1] + [done[n - 1]] + [done0[n - 1]];
    }
    assert it.list.nodes == done + rest;
    assert Data(done) == Edited(old(Data(done0)), Prepend(x));
  }

  method DoAppend<T>(it: Iter<T>, x: T, ghost done0: seq<Node<T>>, ghost rest: seq<Node<T>>)
    returns (ghost done: seq<Node<T>>)
    requires Split(it, done0, rest)
    modifies it.list, it.list.NodeSet()
    ensures Split(it, done, rest)
    ensures forall n :: n in it.list.nodes ==> n in old(it.list.nodes) || fresh(n)
    ensures Data(done) == Edited(old(Data(done0)), Append(x))
    ensures forall n :: n in old(it.list.nodes) ==> n.data == old(n.data)
  {
    hide List.Bridged, Distinct;
    it.Append(x);
    done := it.list.nodes[..|done0| + 1];
    assert done == done0 + [done[|done0|]];
    assert it.list.nodes == done + rest;
    assert Data(done) == Edited(old(Data(done0)), Append(x));
  }

  method DoRemove<T>(it: Iter<T>, ghost done0: seq<Node<T>>, ghost rest: seq<Node<T>>)
    returns (ghost done: seq<Node<T>>)
    requires Split(it, done0, rest) && MayEdit(|done0|, Edit<T>.Remove, |rest|)
    modifies it.list, it.list.NodeSet()
    ensures Split(it, done, rest)
    ensures forall n :: n in it.list.nodes ==> n in old(it.list.nodes) || fresh(n)
    ensures Data(done) == Edited(old(Data(done0)), Remove)
    ensures forall n :: n in old(it.list.nodes) ==> n.data == old(n.data)
  {
    hide List.Bridged, Distinct;
    it.Remove();
    done := if done0 == [] then done0 else done0[..|done0| - 1];
    assert it.list.nodes == done + rest;
    assert Data(done) == Edited(old(Data(done0)), Remove);
  }

  /** One call: it acts on the elements up to the current one alone, not on the rest. */
  method Do<T>(it: Iter<T>, e: Edit<T>, ghost done0: seq<Node<T>>, ghost rest: seq<Node<T>>)
    returns (ghost done: seq<Node<T>>)
    requires Split(it, done0, rest) && MayEdit(|done0|, e, |rest|)
    modifies it.list, it.list.NodeSet()
    ensures Split(it, done, rest)
    ensures forall n :: n in it.list.nodes ==> n in old(it.list.nodes) || fresh(n)
    ensures Data(done) == Edited(old(Data(done0)), e)
    ensures forall n :: n in old(it.list.nodes) ==> n.data == old(n.data)
  {
    hide Split, Edited;
    match e
    case Prepend(x) => done := DoPrepend(it, x, done0, rest);
    case Append(x) => done := DoAppend(it, x, done0, rest);
    case Remove => done := DoRemove(it, done0, rest);
  }

  /** The calls of one turn. */
  method DoAll<T>(it: Iter<T>, edits: seq<Edit<T>>, ghost done0: seq<Node<T>>, ghost rest: seq<Node<T>>)
    returns (ghost done: seq<Node<T>>)
    requires Split(it, done0, rest) && MayEditAll(Data(done0), edits, |rest|)
    modifies it.list, it.list.NodeSet()
    ensures Split(it, done, rest)
    ensures forall n :: n in it.list.nodes ==> n in old(it.list.nodes) || fresh(n)
    ensures Data(done) == EditedAll(old(Data(done0)), edits)
    ensures forall n :: n in old(it.list.nodes) ==> n.data == old(n.data)
  {
    hide Split, Edited, MayEdit;
    ghost var before := Data(done0);
    done := done0;
    for j := 0 to |edits|
      invariant Split(it, done, rest)
      invariant forall n :: n in it.list.nodes ==> n in old(it.list.nodes) || fresh(n)
      invariant Data(done) == EditedAll(before, edits[..j])
      invariant forall n :: n in old(it.list.nodes) ==> n.data == old(n.data)
    {
      EditedStep(before, edits, j);
      done := Do(it, edits[j], done, rest);
    }
    assert edits[..|edits|] == edits;
  }

  /** Before turn i the list is done and the rest of the nodes it began with, whose data are
      still theirs, and done holds what the turns so far make of the first i elements. */
  ghost predicate Reached<T>(it: Iter<T>, turns: seq<seq<Edit<T>>>, ns: seq<Node<T>>, xs: seq<T>, i: nat,
                             done: seq<Node<T>>)
    reads it, it.list, it.list.nodes, ns, done
  {
    i <= |ns| == |xs| == |turns| && Split(it, done, ns[i..])
    && Data(done) == Result(turns[..i], xs[..i]) && forall k :: i <= k < |ns| ==> ns[k].data == xs[k]
  }

  /** One turn of the loop: the next element becomes current and the calls are made there. */
  method Visit<T>(it: Iter<T>, turns: seq<seq<Edit<T>>>, ghost ns: seq<Node<T>>, ghost xs: seq<T>, i: nat,
                  ghost done0: seq<Node<T>>)
    returns (node: Node?<T>, ghost done: seq<Node<T>>)
    requires Reached(it, turns, ns, xs, i, done0) && i < |ns| && NeverEmptied(turns, xs)
    modifies it, it.list, it.list.NodeSet()
    ensures node == ns[i] && Reached(it, turns, ns, xs, i + 1, done)
    ensures forall n :: n in it.list.nodes ==> n in old(it.list.nodes) || fresh(n)
  {
    hide Result, MayEditAll, EditedAll;
    Slices(ns, i);
    ResultStep(turns, xs, i);
    ghost var before := Data(done0);
    node := it.Next();
    done := done0 + [ns[i]];
    assert Data(done) == before + [xs[i]];
    assert done + ns[i + 1..] == it.list.nodes;
    done := DoAll(it, turns[i], done, ns[i + 1..]);
  }

  lemma Slices<X>(s: seq<X>, i: nat)
    requires i < |s|
    ensures s[i..][1..] == s[i + 1..] && s[i..][0] == s[i] && s[..i] + [s[i]] == s[..i + 1]
  {
  }

  lemma BeginsReached<T>(it: Iter<T>, turns: seq<seq<Edit<T>>>)
    requires it.list.Valid() && it.negIdx == -it.list.size - 1 && |turns| == it.list.size
    ensures Reached(it, turns, it.list.nodes, it.list.Contents(), 0, [])
  {
    assert [] + it.list.nodes[0..] == it.list.nodes;
  }

  lemma EndsReached<T>(it: Iter<T>, turns: seq<seq<Edit<T>>>, ns: seq<Node<T>>, xs: seq<T>, done: seq<Node<T>>)
    requires Reached(it, turns, ns, xs, |ns|, done)
    ensures it.list.Valid() && it.list.Contents() == Result(turns, xs)
  {
    assert turns[..|ns|] == turns && xs[..|ns|] == xs;
    assert it.list.nodes == done;
    assert it.list.Contents() == Data(done);
  }

  lemma MoreReached<T>(it: Iter<T>, turns: seq<seq<Edit<T>>>, ns: seq<Node<T>>, xs: seq<T>, i: nat, done: seq<Node<T>>)
    requires Reached(it, turns, ns, xs, i, done)
    ensures it.Valid() && i <= |ns| && (it.Position() + 1 < it.list.size <==> i < |ns|)
  {
  }

  /** A whole traversal visits exactly the nodes that were in the list when it began, from head
      to tail, none that it inserts and none twice, whatever it removes; it leaves what its calls
      make of the elements they were made at. */
  method Traverse<T>(list: List<T>, turns: seq<seq<Edit<T>>>) returns (visited: seq<Node<T>>)
    requires list.Valid() && |turns| == list.size && NeverEmptied(turns, list.Contents())
    modifies list, list.NodeSet()
    ensures list.Valid()
    ensures visited == old(list.nodes)
    ensures list.Contents() == Result(turns, old(list.Contents()))
  {
    hide Reached, Result, NeverEmptied, List.Valid, Iter.Valid, List.Contents;
    ghost var ns, xs := list.nodes, list.Contents();
    var it := new Iter(list);
    BeginsReached(it, turns);
    visited := [];
    ghost var done: seq<Node<T>> := [];
    MoreReached(it, turns, ns, xs, 0, done);
    var more := it.HasNext();
    while more
      invariant it.list == list && fresh(it) && |visited| <= |ns|
      invariant Reached(it, turns, ns, xs, |visited|, done)
      invariant more <==> |visited| < |ns|
      invariant visited == ns[..|visited|]
      invariant forall n :: n in list.nodes ==> n in ns || fresh(n)
      decreases |ns| - |visited|
    {
      Slices(ns, |visited|);
      var node;
      node, done := Visit(it, turns, ns, xs, |visited|, done);
      visited := visited + [node];
      MoreReached(it, turns, ns, xs, |visited|, done);
      more := it.HasNext();
    }
    EndsReached(it, turns, ns, xs, done);
  }
}
