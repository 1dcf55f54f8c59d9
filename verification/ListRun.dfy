/** Whole runs of the list: insertions, removals and look-ups through both cursor directions are
    answered as a sequence answers them. */
module ListRun {
  import opened Wrappers
  import opened LinkedList

  datatype Op<T> = Insert(index: int, data: T) | Remove(index: int) | Get(index: int)

  /** The element of a sequence that an index names, counted from the head from 0 on or from the
      tail from -1 on, if there is one. */
  function Lookup<T>(s: seq<T>, index: int): (r: Option<T>)
    ensures 0 <= index < |s| ==> r == Some(s[index])
    ensures -|s| <= index < 0 ==> r == Some(s[|s| + index])
    ensures index >= |s| || index < -|s| ==> r == None
  {
    var p := Place(index, |s|);
    if 0 <= p < |s| then Some(s[p]) else None
  }

  function Effect<T>(s: seq<T>, op: Op<T>): seq<T> {
    match op
    case Insert(index, data) =>
      var gap := InsertPlace(index, |s|);
      if gap.Some? then s[..gap.value] + [data] + s[gap.value..] else s
    case Remove(index) =>
      var p := Place(index, |s|);
      if 0 <= p < |s| then s[..p] + s[p + 1..] else s
    case Get(_) => s
  }

  /** Putting x into gap i, from either end: it is found there, from either end, and every other
      element keeps its place before or behind it. */
  lemma InsertThenLookup<T>(s: seq<T>, i: nat, x: T, j: nat)
    requires i <= |s| && j <= |s|
    ensures Effect(s, Insert(i, x)) == Effect(s, Insert(i - |s| - 1, x))
    ensures Lookup(Effect(s, Insert(i, x)), j) == if j == i then Some(x) else Lookup(s, if j < i then j else j - 1)
    ensures Lookup(Effect(s, Insert(i, x)), j - |s| - 1) == Lookup(Effect(s, Insert(i, x)), j)
  {
  }

  /** Removing at the index just inserted at, from either end, gives the sequence back, */
  lemma InsertThenRemove<T>(s: seq<T>, i: nat, x: T)
    requires i <= |s|
    ensures Effect(Effect(s, Insert(i, x)), Remove(i)) == s
    ensures Effect(Effect(s, Insert(i, x)), Remove(i - |s| - 1)) == s
  {
  }

  /** and so does inserting again what was removed. Out of range neither does anything. */
  lemma RemoveThenInsert<T>(s: seq<T>, i: nat, index: int, x: T)
    ensures i < |s| ==> Effect(Effect(s, Remove(i)), Insert(i, s[i])) == s
    ensures i < |s| ==> Effect(s, Remove(i)) == Effect(s, Remove(i - |s|))
    ensures Lookup(s, index).None? ==> Effect(s, Remove(index)) == s
    ensures index > |s| || index < -|s| - 1 ==> Effect(s, Insert(index, x)) == s
  {
  }

  function After<T>(ops: seq<Op<T>>): seq<T> {
    if ops == [] then [] else Effect(After(ops[..|ops| - 1]), ops[|ops| - 1])
  }

  /** What the caller sees: nothing from an insertion, the data of the node returned else. */
  function Answer<T>(s: seq<T>, op: Op<T>): Option<T> {
    if op.Insert? then None else Lookup(s, op.index)
  }

  /** The operation removes the only element of the list. */
  predicate Empties<T>(s: seq<T>, op: Op<T>) {
    op.Remove? && Lookup(s, op.index).Some? && |s| < 2
  }

  ghost predicate NeverEmptied<T>(ops: seq<Op<T>>) {
    forall i :: 0 <= i < |ops| ==> !Empties(After(ops[..i]), ops[i])
  }

  /** The list is well formed and its elements are s. */
  ghost predicate Shows<T>(list: List<T>, s: seq<T>)
    reads list, list.nodes
  {
    list.Valid() && |list.nodes| == |s| && forall i :: 0 <= i < |s| ==> list.nodes[i].data == s[i]
  }

  lemma InsertShows<T>(list: List<T>, ns: seq<Node<T>>, s: seq<T>, p: nat, data: T)
    requires list.Valid() && p <= |s| == |ns| && list.Inserted(ns, p, data)
    requires forall i :: 0 <= i < |s| ==> ns[i].data == s[i]
    ensures Shows(list, s[..p] + [data] + s[p..])
  {
    forall i | 0 <= i < |list.nodes| && i != p
      ensures list.nodes[i] == ns[if i < p then i else i - 1]
    {
    }
  }

  lemma RemoveShows<T>(list: List<T>, ns: seq<Node<T>>, s: seq<T>, p: nat)
    requires list.Valid() && p < |s| == |ns| && list.Removed(ns, p)
    requires forall i :: 0 <= i < |s| ==> ns[i].data == s[i]
    ensures Shows(list, s[..p] + s[p + 1..])
  {
    forall i | 0 <= i < |list.nodes|
      ensures list.nodes[i] == ns[if i < p then i else i + 1]
    {
    }
  }

  method DoInsert<T>(list: List<T>, index: int, data: T, ghost s: seq<T>)
    requires Shows(list, s)
    modifies list, list.NodeSet()
    ensures Shows(list, Effect(s, Insert(index, data)))
    ensures fresh(list.NodeSet() - old(list.NodeSet()))
  {
    ghost var ns, gap := list.nodes, InsertPlace(index, |s|);
    list.Insert(index, data);
    assert forall i :: 0 <= i < |s| ==> ns[i] in ns;
    if gap.Some? {
      InsertShows(list, ns, s, gap.value, data);
    }
  }

  /** Removes an element; not ok when it was the only one, after which the list is not well
      formed. */
  method DoRemove<T>(list: List<T>, index: int, ghost s: seq<T>) returns (answer: Option<T>, ok: bool)
    requires Shows(list, s)
    modifies list, list.NodeSet()
    ensures ok <==> !Empties(s, Op<T>.Remove(index))
    ensures ok ==> Shows(list, Effect(s, Remove(index))) && fresh(list.NodeSet() - old(list.NodeSet()))
    ensures !ok ==> !list.Valid()
    ensures answer == Lookup(s, index)
  {
    ghost var ns, p := list.nodes, Place(index, |s|);
    ok := list.size >= 2;
    var node, _ := list.Remove(index);
    assert forall i :: 0 <= i < |s| ==> ns[i] in ns;
    if node == null {
      return None, true;
    }
    answer := Some(node.data);
    if ok {
      RemoveShows(list, ns, s, p);
    }
  }

  method DoGet<T>(list: List<T>, index: int, ghost s: seq<T>) returns (answer: Option<T>)
    requires Shows(list, s)
    ensures answer == Lookup(s, index)
  {
    var node := list.Get(index);
    answer := if node != null then Some(node.data) else None;
  }

  method Step<T>(list: List<T>, op: Op<T>, ghost s: seq<T>) returns (answer: Option<T>, ok: bool)
    requires Shows(list, s)
    modifies list, list.NodeSet()
    ensures ok <==> !Empties(s, op)
    ensures ok ==> Shows(list, Effect(s, op)) && fresh(list.NodeSet() - old(list.NodeSet()))
    ensures !ok ==> !list.Valid()
    ensures answer == Answer(s, op)
    ensures answer == if op.Insert? then None else Lookup(s, op.index)
  {
    ok := true;
    match op {
      case Insert(index, data) =>
        DoInsert(list, index, data, s);
        answer := None;
      case Remove(index) =>
        answer, ok := DoRemove(list, index, s);
      case Get(index) =>
        answer := DoGet(list, index, s);
    }
  }

  /** The operations so far have kept the list from being emptied and been answered as by a
      sequence. */
  ghost predicate Answered<T>(ops: seq<Op<T>>, answers: seq<Option<T>>) {
    && |answers| <= |ops| && NeverEmptied(ops[..|answers|])
    && forall i :: 0 <= i < |answers| ==> answers[i] == Answer(After(ops[..i]), ops[i])
  }

  lemma NothingAnswered<T>(ops: seq<Op<T>>)
    ensures Answered(ops, []) && After(ops[..0]) == []
  {
  }

  lemma AnsweredStep<T>(ops: seq<Op<T>>, answers: seq<Option<T>>, a: Option<T>)
    requires Answered(ops, answers) && |answers| < |ops|
    requires var s := After(ops[..|answers|]); !Empties(s, ops[|answers|]) && a == Answer(s, ops[|answers|])
    ensures Answered(ops, answers + [a])
    ensures After(ops[..|answers| + 1]) == Effect(After(ops[..|answers|]), ops[|answers|])
  {
    hide After, Effect, Answer, Empties;
    AfterStep(ops, |answers|);
    var longer := ops[..|answers| + 1];
    forall i | 0 <= i < |longer|
      ensures !Empties(After(longer[..i]), longer[i])
    {
      assert longer[..i] == ops[..i];
      if i < |answers| {
        assert ops[..|answers|][..i] == ops[..i];
      }
    }
  }

  lemma AfterStep<T>(ops: seq<Op<T>>, i: nat)
    requires i < |ops|
    ensures After(ops[..i + 1]) == Effect(After(ops[..i]), ops[i])
  {
    assert ops[..i + 1][..i] == ops[..i];
  }

  /** Every answer of a run is the sequence's answer after the operations before it. The run goes
      on to its end if and only if no operation removes the only element, and else to the first
      that does. */
  method Run<T>(ops: seq<Op<T>>) returns (answers: seq<Option<T>>)
    ensures Answered(ops, answers)
    ensures |answers| == |ops| <==> NeverEmptied(ops)
    ensures |answers| < |ops| ==> Empties(After(ops[..|answers|]), ops[|answers|])
  {
    hide Answered, After, Effect, Answer, Empties, Shows;
    var list := new List<T>();
    answers := [];
    NothingAnswered(ops);
    EmptyShows(list);
    for i := 0 to |ops|
      invariant Shows(list, After(ops[..i])) && fresh(list) && fresh(list.NodeSet())
      invariant |answers| == i && Answered(ops, answers)
    {
      var a, ok := Step(list, ops[i], After(ops[..i]));
      if !ok {
        return;
      }
      AnsweredStep(ops, answers, a);
      answers := answers + [a];
    }
    AllAnswered(ops, answers);
  }

  lemma EmptyShows<T>(list: List<T>)
    requires list.Valid() && list.nodes == []
    ensures Shows(list, [])
  {
  }

  lemma AllAnswered<T>(ops: seq<Op<T>>, answers: seq<Option<T>>)
    requires Answered(ops, answers) && |answers| == |ops|
    ensures NeverEmptied(ops)
  {
    assert ops[..|ops|] == ops;
  }
}
