/** notify.c: the registry of notification handlers, a list of named lists. It refines a
    multimap. */
module Notify {
  import opened Wrappers
  import opened LinkedList
  import opened ListIter
  import opened ListRun

  /** A notify_handler_t. */
  datatype Handler = Handler(address: nat)

  /** notify_info_t: both fields are set once, when the entry is made. */
  class Info {
    const name: string
    const handlers: List<Handler>

    constructor (name: string)
      ensures this.name == name && fresh(handlers) && handlers.Valid() && handlers.nodes == []
    {
      this.name := name;
      var l := new List<Handler>();
      handlers := l;
    }
  }

  /** Each name of m has exactly one entry, and there are no others. */
  ghost predicate OneEach(infos: seq<Info>, m: map<string, seq<Handler>>) {
    && (forall i: nat, j: nat :: i < j < |infos| ==> infos[i].name != infos[j].name)
    && (forall i: nat :: i < |infos| ==> infos[i].name in m)
    && (forall k :: k in m ==> exists i: nat :: i < |infos| && infos[i].name == k)
  }

  lemma OneEachGrows(infos: seq<Info>, m: map<string, seq<Handler>>, info: Info)
    requires OneEach(infos, m) && info.name !in m
    ensures OneEach(infos + [info], m[info.name := []])
  {
    var infos', m' := infos + [info], m[info.name := []];
    forall k | k in m'
      ensures exists i: nat :: i < |infos'| && infos'[i].name == k
    {
      if k == info.name {
        assert infos'[|infos|].name == k;
      } else {
        var i: nat :| i < |infos| && infos[i].name == k;
        assert infos'[i].name == k;
      }
    }
  }

  lemma OneEachUpdate(infos: seq<Info>, m: map<string, seq<Handler>>, k: string, hs: seq<Handler>)
    requires OneEach(infos, m) && k in m
    ensures OneEach(infos, m[k := hs])
  {
  }

  /** The objects of entry i belong to it. */
  ghost predicate OwnedEntry(owner: map<object, int>, info: Info, i: int)
    reads if info.handlers in owner then {info.handlers} else {}
  {
    && info.handlers in owner && owner[info.handlers] == i
    && (forall o :: o in info.handlers.nodes ==> o in owner && owner[o] == i)
  }

  /** The entry holds the handlers of its name. */
  ghost predicate Held(info: Info, m: map<string, seq<Handler>>)
    reads info.handlers, info.handlers.nodes
  {
    info.name in m && Shows(info.handlers, m[info.name])
  }

  /** The owners after the list of entries has grown to these objects and entry i has been made. */
  ghost function WithEntry(owner: map<object, int>, spine: set<object>, handlers: object, i: int): map<object, int> {
    (owner + map o | o in spine :: -1)[handlers := i]
  }

  /** The owners after a handler list has grown to these objects. */
  ghost function WithHandlers(owner: map<object, int>, objects: set<object>, i: int): map<object, int> {
    owner + map o | o in objects :: i
  }

  lemma WithEntryKeeps(owner: map<object, int>, spine: set<object>, handlers: object, i: int)
    requires handlers !in owner && handlers !in spine
    requires forall o :: o in spine && o in owner ==> owner[o] == -1
    ensures var owner' := WithEntry(owner, spine, handlers, i);
      owner'.Keys == owner.Keys + spine + {handlers} && owner'[handlers] == i
      && (forall o :: o in owner ==> owner'[o] == owner[o]) && (forall o :: o in spine ==> owner'[o] == -1)
  {
  }

  lemma StillOwned(owner: map<object, int>, owner': map<object, int>, info: Info, i: int)
    requires OwnedEntry(owner, info, i)
    requires forall o :: o in owner && owner[o] == i ==> o in owner' && owner'[o] == i
    ensures OwnedEntry(owner', info, i)
  {
  }

  /** An entry whose objects, and no others, a map gives to it. */
  lemma NewlyOwned(owner: map<object, int>, info: Info, i: int)
    requires forall o :: o in info.handlers.NodeSet() ==> o in owner && owner[o] == i
    requires info.handlers in owner && owner[info.handlers] == i
    ensures OwnedEntry(owner, info, i)
  {
  }

  lemma NewlyHeld(info: Info, m: map<string, seq<Handler>>, hs: seq<Handler>)
    requires info.name in m && m[info.name] == hs && Shows(info.handlers, hs)
    ensures Held(info, m)
  {
  }

  lemma StillHeld(info: Info, m: map<string, seq<Handler>>, m': map<string, seq<Handler>>)
    requires Held(info, m) && (info.name in m ==> info.name in m' && m'[info.name] == m[info.name])
    ensures Held(info, m')
  {
  }

  class Registry {
    var list: List<Info>
    ghost var infos: seq<Info>
    ghost var M: map<string, seq<Handler>>
    /** Which part of the registry each of its objects belongs to: the registry itself, the list
        of entries, or the handler list of entry i. It keeps the parts separate. */
    ghost var owner: map<object, int>

    ghost predicate OwnedSpine(owner: map<object, int>)
      reads `list, if list in owner then {list} else {}
    {
      && this in owner && owner[this] == -2
      && list in owner && owner[list] == -1
      && (forall o :: o in list.nodes ==> o in owner && owner[o] == -1)
    }

    /** The list shows these entries, one for each name of m, and every part owns its objects. */
    ghost predicate Good(owner: map<object, int>, infos: seq<Info>, m: map<string, seq<Handler>>)
      reads `list, owner.Keys - {this}
    {
      && OwnedSpine(owner) && Shows(list, infos) && OneEach(infos, m)
      && (forall i: nat :: i < |infos| ==> OwnedEntry(owner, infos[i], i) && Held(infos[i], m))
    }

    ghost predicate Valid()
      reads this, owner.Keys
    {
      Good(owner, infos, M)
    }

    constructor ()
      ensures Valid() && fresh(owner.Keys) && M == map[] && infos == []
    {
      var l := new List<Info>();
      list := l;
      infos, M, owner := [], map[], map[];
      new;
      owner := owner[this := -2][l := -1];
    }

    /** list_get__data with notify_compare. */
    method Find(name: string) returns (node: Node?<Info>, ghost at: nat)
      requires Valid()
      ensures node != null <==> name in M
      ensures node != null ==> at < |infos| && node.data == infos[at] && infos[at].name == name
    {
      node, at := GetData(list, (i: Info) => i.name == name);
      assert node == null ==> forall i: nat :: i < |infos| ==> list.nodes[i].data == infos[i];
    }

    /** _add_notify: a new entry, with no handlers, at the tail. */
    method AddNotify(name: string)
      requires Valid() && name !in M
      modifies owner.Keys
      ensures Valid() && fresh(owner.Keys - old(owner.Keys))
      ensures M == old(M)[name := []] && |infos| == old(|infos|) + 1 && infos[..old(|infos|)] == old(infos)
    {
      hide OneEach, Held;
      var info := new Info(name);
      OneEachGrows(infos, M, info);
      DoInsert(list, -1, info, infos);
      forall i: nat | i < |infos|
        ensures OwnedEntry(owner, infos[i], i) && Held(infos[i], M)
      {
        assert old(OwnedEntry(owner, infos[i], i));
        assert old(Held(infos[i], M));
      }
      Enter(info);
    }

    lemma NameKept(infos: seq<Info>, info: Info, m: map<string, seq<Handler>>, i: nat)
      requires OneEach(infos + [info], m[info.name := []]) && i < |infos|
      ensures infos[i].name != info.name && infos[i].name in m
    {
      assert (infos + [info])[i] == infos[i] && (infos + [info])[|infos|] == info;
    }

    /** What has to hold for a new entry to be entered. */
    ghost predicate Enterable(info: Info)
      reads this, list, list.nodes, info.handlers, info.handlers.nodes, owner.Keys
    {
      && this in owner && owner[this] == -2 && list in owner && owner[list] == -1
      && (forall o :: o in list.nodes && o in owner ==> owner[o] == -1)
      && Shows(list, infos + [info]) && OneEach(infos + [info], M[info.name := []])
      && (forall i: nat :: i < |infos| ==> OwnedEntry(owner, infos[i], i) && Held(infos[i], M))
      && info.handlers !in owner && info.handlers !in list.NodeSet()
      && Shows(info.handlers, []) && info.handlers.nodes == [] && info.name !in M
    }

    lemma EntryAfter(info: Info, owner': map<object, int>, i: nat)
      requires Enterable(info) && i <= |infos|
      requires owner' == WithEntry(owner, list.NodeSet(), info.handlers, |infos|)
      ensures OwnedEntry(owner', (infos + [info])[i], i) && Held((infos + [info])[i], M[info.name := []])
    {
      WithEntryKeeps(owner, list.NodeSet(), info.handlers, |infos|);
      if i == |infos| {
        NewlyOwned(owner', info, i);
        NewlyHeld(info, M[info.name := []], []);
      } else {
        NameKept(infos, info, M, i);
        StillOwned(owner, owner', infos[i], i);
        StillHeld(infos[i], M, M[info.name := []]);
      }
    }

    lemma EntersGood(info: Info)
      requires Enterable(info)
      ensures var owner' := WithEntry(owner, list.NodeSet(), info.handlers, |infos|);
        Good(owner', infos + [info], M[info.name := []])
        && owner'.Keys == owner.Keys + list.NodeSet() + {info.handlers}
    {
      ghost var owner' := WithEntry(owner, list.NodeSet(), info.handlers, |infos|);
      WithEntryKeeps(owner, list.NodeSet(), info.handlers, |infos|);
      forall i: nat | i < |infos| + 1
        ensures OwnedEntry(owner', (infos + [info])[i], i) && Held((infos + [info])[i], M[info.name := []])
      {
        EntryAfter(info, owner', i);
      }
    }

    /** The ghost side of a new entry. */
    ghost method Enter(info: Info)
      requires Enterable(info)
      modifies `infos, `M, `owner
      ensures Valid() && M == old(M)[info.name := []] && infos == old(infos) + [info]
      ensures owner.Keys == old(owner.Keys) + list.NodeSet() + {info.handlers}
    {
      hide Good, Enterable, WithEntry;
      EntersGood(info);
      owner, infos, M := WithEntry(owner, list.NodeSet(), info.handlers, |infos|), infos + [info], M[info.name := []];
    }

    /** _add_handler: list_rpush on the entry's list. */
    method AddHandler(info: Info, handler: Handler, ghost at: nat)
      requires Valid() && at < |infos| && infos[at] == info
      modifies owner.Keys
      ensures Valid() && fresh(owner.Keys - old(owner.Keys))
      ensures info.name in old(M) && M == old(M)[info.name := old(M)[info.name] + [handler]] && infos == old(infos)
    {
      hide OneEach;
      assert OwnedEntry(owner, info, at) && Held(info, M);
      ghost var hs := M[info.name] + [handler];
      OneEachUpdate(infos, M, info.name, hs);
      DoInsert(info.handlers, -1, handler, M[info.name]);
      assert Shows(info.handlers, hs);
      forall i: nat | i < |infos| && i != at
        ensures OwnedEntry(owner, infos[i], i) && Held(infos[i], M) && infos[i].name != info.name
      {
        assert old(OwnedEntry(owner, infos[i], i)) && old(Held(infos[i], M));
        NamesDiffer(infos, M, i, at);
      }
      ExtendsGood(info, hs, at);
      owner, M := WithHandlers(owner, info.handlers.NodeSet(), at), M[info.name := hs];
    }

    lemma NamesDiffer(infos: seq<Info>, m: map<string, seq<Handler>>, i: nat, j: nat)
      requires OneEach(infos, m) && i < |infos| && j < |infos| && i != j
      ensures infos[i].name != infos[j].name
    {
    }

    lemma ExtendsGood(info: Info, hs: seq<Handler>, at: nat)
      requires OwnedSpine(owner) && Shows(list, infos) && at < |infos| && infos[at] == info
      requires info.name in M && OneEach(infos, M[info.name := hs])
      requires info.handlers in owner && owner[info.handlers] == at && Shows(info.handlers, hs)
      requires forall o :: o in info.handlers.nodes && o in owner ==> owner[o] == at
      requires forall i: nat :: i < |infos| && i != at ==>
                 OwnedEntry(owner, infos[i], i) && Held(infos[i], M) && infos[i].name != info.name
      ensures Good(WithHandlers(owner, info.handlers.NodeSet(), at), infos, M[info.name := hs])
    {
      ghost var owner' := WithHandlers(owner, info.handlers.NodeSet(), at);
      forall i: nat | i < |infos|
        ensures OwnedEntry(owner', infos[i], i) && Held(infos[i], M[info.name := hs])
      {
        if i == at {
          NewlyOwned(owner', info, at);
          NewlyHeld(info, M[info.name := hs], hs);
        } else {
          StillOwned(owner, owner', infos[i], i);
          StillHeld(infos[i], M, M[info.name := hs]);
        }
      }
    }

    lemma WithAdds(before: map<string, seq<Handler>>, m: map<string, seq<Handler>>, name: string, handler: Handler)
      requires m == if name in before then before else before[name := []]
      ensures name in m && m[name := m[name] + [handler]] == With(before, name, handler)
    {
    }

    /** notify_add_handler. */
    method Add(name: string, handler: Handler)
      requires Valid()
      modifies owner.Keys
      ensures Valid() && fresh(owner.Keys - old(owner.Keys))
      ensures M == With(old(M), name, handler)
    {
      hide *;
      var node, at := Find(name);
      if node == null {
        AddNotify(name);
        node, at := Find(name);
      }
      WithAdds(old(M), M, name, handler);
      AddHandler(node.data, handler, at);
    }

    /** notify_get_handlers: for a name without an entry it would follow a null pointer. */
    method GetHandlers(name: string) returns (handlers: Option<List<Handler>>)
      requires Valid()
      ensures handlers.Some? <==> name in M
      ensures handlers.Some? ==> handlers.value in owner && handlers.value.Valid() && Shows(handlers.value, M[name])
    {
      var node, at := Find(name);
      if node == null {
        return None;
      }
      assert OwnedEntry(owner, infos[at], at) && Held(infos[at], M);
      return Some(node.data.handlers);
    }
  }

  // ---- whole runs ----------------------------------------------------------------------------

  function With(m: map<string, seq<Handler>>, name: string, h: Handler): map<string, seq<Handler>> {
    m[name := (if name in m then m[name] else []) + [h]]
  }

  function Registered(regs: seq<(string, Handler)>): map<string, seq<Handler>> {
    if regs == [] then map[] else
    var n := |regs| - 1;
    With(Registered(regs[..n]), regs[n].0, regs[n].1)
  }

  /** The handlers registered under a name, in order. */
  function HandlersOf(regs: seq<(string, Handler)>, name: string): seq<Handler> {
    if regs == [] then [] else
    (if regs[0].0 == name then [regs[0].1] else []) + HandlersOf(regs[1..], name)
  }

  lemma {:induction false} HandlersOfSnoc(regs: seq<(string, Handler)>, r: (string, Handler), name: string)
    ensures HandlersOf(regs + [r], name) == HandlersOf(regs, name) + if r.0 == name then [r.1] else []
  {
    if regs != [] {
      assert (regs + [r])[1..] == regs[1..] + [r];
      HandlersOfSnoc(regs[1..], r, name);
    }
  }

  /** A name is in the registry if and only if something was registered under it, and its
      handlers are exactly those, in order. */
  lemma {:induction false} RegistryIsMultimap(regs: seq<(string, Handler)>, name: string)
    ensures name in Registered(regs) <==> exists i :: 0 <= i < |regs| && regs[i].0 == name
    ensures name in Registered(regs) ==> Registered(regs)[name] == HandlersOf(regs, name)
    ensures name !in Registered(regs) ==> HandlersOf(regs, name) == []
  {
    if regs != [] {
      var n := |regs| - 1;
      RegistryIsMultimap(regs[..n], name);
      HandlersOfSnoc(regs[..n], regs[n], name);
      assert regs[..n] + [regs[n]] == regs;
      if i :| 0 <= i < n && regs[..n][i].0 == name {
        assert regs[i].0 == name;
      }
    }
  }

  /** A registry after any sequence of registrations: one entry for each name registered. */
  method Run(regs: seq<(string, Handler)>) returns (r: Registry)
    ensures fresh(r) && r.Valid() && r.M == Registered(regs)
  {
    r := new Registry();
    for i := 0 to |regs|
      invariant fresh(r) && r.Valid() && fresh(r.owner.Keys) && r.M == Registered(regs[..i])
    {
      r.Add(regs[i].0, regs[i].1);
      assert regs[..i + 1][..i] == regs[..i];
    }
    assert regs[..|regs|] == regs;
  }
}
