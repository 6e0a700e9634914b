/** The shared layouts of a realm, with what each has learnt since it was made. */
module LayoutTable {
  import opened Wrappers
  import opened Layouts
  import opened LayoutIndex

  const INDEX_MIN_LEN: nat := 8
  const INDEX_AFTER_PROBES: nat := 3

  class ShapeTree {
    var nodes: map<Id, Node>
    var next: Id
    /** Walked lookups served so far, of the layouts that have served any. */
    var probes: map<Id, nat>
    var indexes: map<Id, ShapeIndex>

    ghost predicate Valid()
      reads this
    {
      && View().Valid()
      && probes.Keys <= nodes.Keys && indexes.Keys <= nodes.Keys
      && (forall x | x in indexes :: IndexOf(indexes[x], View().Keys(x)))
    }

    function View(): Tree
      reads this
    {
      Tree(nodes, next)
    }

    constructor ()
      ensures Valid() && View() == Tree(map[], 0)
    {
      nodes, next, probes, indexes := map[], 0, map[], map[];
    }

    /** Another view of the layouts, under which everything known stays known. */
    twostate lemma StillIndexed()
      requires old(Valid()) && View().Valid() && old(View()).Evolves(View())
      requires probes == old(probes) && indexes == old(indexes)
      ensures Valid()
    {
      forall x | x in indexes ensures x in nodes && IndexOf(indexes[x], View().Keys(x)) {
        assert old(View()).KeptIn(View(), x);
        EvolvesKeeps(old(View()), View(), x, []);
      }
      forall x | x in probes ensures x in nodes { assert old(View()).KeptIn(View(), x); }
    }

    /** `Shape::root`. */
    method Root() returns (x: Id)
      requires Valid()
      modifies this
      ensures Valid() && (View(), x) == old(View()).NewRoot() && old(View()).Evolves(View())
      ensures x !in old(nodes) && x in nodes && nodes[x].parent.None?
    {
      NewRootLaw(View());
      x := next;
      nodes, next := nodes[next := EmptyLayout], next + 1;
      StillIndexed();
    }

    /** `Shape::add`, of a key the caller found absent. */
    method Add(x: Id, k: Key) returns (c: Id)
      requires Valid() && x in nodes && k !in View().Keys(x)
      modifies this
      ensures Valid() && (View(), c) == old(View()).Add(x, k) && old(View()).Evolves(View())
      ensures c in nodes && nodes[c].parent == Some(x) && nodes[c].key == k
        && View().Keys(c) == old(View()).Keys(x) + [k]
      ensures old(nodes)[x].any <= nodes[c].any
    {
      hide Transitions.Get, Transitions.Insert;
      AddLaw(View(), x, k);
      match nodes[x].kids.Get(nodes.Keys, k)
      case Some(known) =>
        c := known;
      case None =>
        c := next;
        var child := Node(Some(x), k, nodes[x].len + 1, nodes[x].any, NoKids);
        var knowing := nodes[x].(kids := nodes[x].kids.Insert(nodes.Keys + {c}, k, c));
        nodes, next := nodes[x := knowing][c := child], next + 1;
        StillIndexed();
    }

    /** `Shape::transition`. */
    method Transition(x: Id, k: Key) returns (c: Id)
      requires Valid() && x in nodes && nodes[x].len < U32
      modifies this
      ensures Valid() && (View(), c) == old(View()).Transition(x, k) && old(View()).Evolves(View())
    {
      FindIsIndex(View(), x, k);
      var found := Lookup(x, k);
      if found.Some? { return x; }
      c := Add(x, k);
    }

    /** `Shape::keys`: the index's, or those met walking up, put in front one by one. */
    method Names(x: Id) returns (keys: seq<Key>)
      requires Valid() && x in nodes
      ensures keys == View().Keys(x)
    {
      if x in indexes { return indexes[x].keys; }
      var n := x;
      keys := [];
      assert View().LinkedAt(n);
      while nodes[n].parent.Some?
        invariant n in nodes && View().LinkedAt(n) && View().Keys(n) + keys == View().Keys(x)
        decreases n
      {
        keys := [nodes[n].key] + keys;
        n := nodes[n].parent.value;
        assert View().LinkedAt(n);
      }
    }

    /** `lookup`: a small layout walks; a large one that is asked a third time is indexed.
        Either way the answer is the walk's. */
    method Lookup(x: Id, k: Key) returns (slot: Option<nat>)
      requires Valid() && x in nodes && nodes[x].len < U32
      modifies this`probes, this`indexes
      ensures Valid() && slot == View().Find(x, k)
    {
      hide Tree.Valid, IndexOf;
      ValidParts();
      FindIsIndex(View(), x, k);
      KeysDistinct(View(), x);
      if nodes[x].len < INDEX_MIN_LEN {
        slot := Walk(x, k);
        return;
      }
      if x in indexes {
        IndexKeys(indexes[x], View().Keys(x));
        slot := Find(indexes[x], k);
        return;
      }
      var n := (if x in probes then probes[x] else 0) + 1;
      probes := probes[x := n];
      if n >= INDEX_AFTER_PROBES {
        var ix := Build(View().Keys(x));
        indexes := indexes[x := ix];
        IndexKeys(indexes[x], View().Keys(x));
        slot := Find(ix, k);
        return;
      }
      slot := Walk(x, k);
    }

    lemma ValidParts()
      requires View().Valid()
      ensures View().Linked() && View().NoRepeats()
    {
    }

    lemma IndexKeys(ix: ShapeIndex, keys: seq<Key>)
      requires IndexOf(ix, keys)
      ensures ix.keys == keys && IndexOf(ix, ix.keys)
    {
    }

    /** `walk_lookup`. */
    method Walk(x: Id, k: Key) returns (slot: Option<nat>)
      requires View().Linked() && x in nodes
      ensures slot == View().Find(x, k)
    {
      var node := x;
      while true
        invariant node in nodes && View().Find(x, k) == View().Find(node, k)
        decreases node
      {
        assert View().LinkedAt(node);
        if nodes[node].parent.Some? && nodes[node].key == k { return Some(nodes[node].len - 1); }
        if nodes[node].parent.None? { return None; }
        node := nodes[node].parent.value;
      }
    }

    // ---- The Number-only record

    /** `note_non_numbers`. */
    method NoteNonNumbers(x: Id, mask: set<nat>)
      requires Valid() && x in nodes && (forall i | i in mask :: i < TRACKED)
      modifies this`nodes
      ensures Valid() && View() == old(View()).Noted(x, mask) && old(View()).Evolves(View())
      ensures x in nodes && mask <= nodes[x].any
    {
      NotedLaw(View(), x, mask);
      if mask <= nodes[x].any {
        NotedCovered(View(), x, mask);
      } else {
        Downgrade(x, mask);
      }
      StillIndexed();
    }

    /** `downgrade`: marks `top` and, from a worklist, every child still in use, without going
        below one that needs no mark. */
    method Downgrade(top: Id, mask: set<nat>)
      requires Valid() && top in nodes
      modifies this`nodes
      ensures View() == old(View()).Noted(top, mask)
    {
      ghost var t0 := View();
      nodes := nodes[top := nodes[top].(any := nodes[top].any + mask)];
      StartsSpreading(t0, View(), top, mask);
      var stack := KidsInUse(top, t0);
      SpreadFromTop(t0, View(), top, mask, stack);
      while stack != []
        invariant next == old(next) && Spreading(t0, View(), top, mask, stack)
        decreases Unmarked(View(), mask), |stack|
      {
        var s := stack[|stack| - 1];
        ghost var t, was := View(), stack;
        stack := stack[..|stack| - 1];
        PoppedIsBelow(t0, t, top, mask, was);
        if mask <= nodes[s].any {
          SpreadPruned(t0, t, top, mask, was);
        } else {
          nodes := nodes[s := nodes[s].(any := nodes[s].any + mask)];
          MarkedOneMore(t, s, mask);
          SpreadKeepsLayouts(t0, t, View(), top, mask, was);
          var kids := KidsInUse(s, t0);
          stack := stack + kids;
          SpreadMarked(t0, t, View(), top, mask, was, kids);
        }
      }
      SpreadDone(t0, View(), top, mask);
    }

    /** `for_each_live`, in some order. */
    method KidsInUse(p: Id, ghost t0: Tree) returns (kids: seq<Id>)
      requires t0.Valid() && SameLayouts(t0, View()) && p in nodes
      ensures forall c :: c in kids <==> c in nodes && nodes[c].parent == Some(p)
    {
      ghost var all := nodes[p].kids;
      KidsAreChildren(t0, View(), p);
      kids := [];
      match nodes[p].kids
      case NoKids =>
      case One(_, c) =>
        assert all.Has(all.key, c);
        if c in nodes { kids := [c]; }
      case Short(list) =>
        for i := 0 to |list|
          invariant forall c :: c in kids <==> c in nodes && exists j :: 0 <= j < i && list[j].1 == c
        {
          if list[i].1 in nodes { kids := kids + [list[i].1]; }
        }
        assert forall j | 0 <= j < |list| :: all.Has(list[j].0, list[j].1);
      case Table(entries, _) =>
        var rest := entries.Keys;
        while rest != {}
          invariant rest <= entries.Keys
          invariant forall c :: c in kids <==> c in nodes && exists k :: k in entries && k !in rest && entries[k] == c
        {
          var k :| k in rest;
          if entries[k] in nodes { kids := kids + [entries[k]]; }
          rest := rest - {k};
        }
        assert forall k | k in entries :: all.Has(k, entries[k]);
    }

    /** The last holder of `x`, which nothing grew from, lets go of it. */
    method Release(x: Id)
      requires Valid() && (forall y | y in nodes :: nodes[y].parent != Some(x))
      modifies this
      ensures Valid() && View() == old(View()).Drop(x)
    {
      DropLaw(View(), x);
      nodes, probes, indexes := nodes - {x}, probes - {x}, indexes - {x};
      forall y | y in indexes ensures IndexOf(indexes[y], View().Keys(y)) {
        assert View().KeptIn(old(View()), y);
        EvolvesKeeps(View(), old(View()), y, []);
      }
    }
  }

  // ---- The worklist's progress

  /** `t` differs from `t0` in its records alone. */
  ghost predicate SameLayouts(t0: Tree, t: Tree) {
    && t.nodes.Keys == t0.nodes.Keys && t.next == t0.next
    && (forall x | x in t0.nodes :: t.nodes[x].(any := {}) == t0.nodes[x].(any := {}))
  }

  /** Only layouts grown from `top` learn anything, and that is `mask`. */
  ghost predicate MarkedBelow(t0: Tree, t: Tree, top: Id, mask: set<nat>)
    requires t0.Linked() && SameLayouts(t0, t)
  {
    forall x | x in t0.nodes ::
      t.nodes[x].any == t0.nodes[x].any || (t0.Below(x, top) && t.nodes[x].any == t0.nodes[x].any + mask)
  }

  /** A child of a marked layout is marked or waits on the stack. */
  ghost predicate Frontier(t: Tree, top: Id, mask: set<nat>, stack: seq<Id>) {
    forall x | x in t.nodes && t.nodes[x].parent.Some? && t.nodes[x].parent.value in t.nodes ::
      mask <= t.nodes[t.nodes[x].parent.value].any ==> mask <= t.nodes[x].any || x in stack
  }

  ghost predicate Spreading(t0: Tree, t: Tree, top: Id, mask: set<nat>, stack: seq<Id>) {
    && t0.Valid() && top in t0.nodes && SameLayouts(t0, t) && MarkedBelow(t0, t, top, mask)
    && mask <= t.nodes[top].any
    && Frontier(t, top, mask, stack)
    && (forall x | x in stack :: x in t0.nodes && t0.Below(x, top))
  }

  ghost function Unmarked(t: Tree, mask: set<nat>): set<Id> {
    set x | x in t.nodes && !(mask <= t.nodes[x].any)
  }

  lemma KidsAreChildren(t0: Tree, t: Tree, p: Id)
    requires t0.Valid() && SameLayouts(t0, t) && p in t.nodes
    ensures forall c: Id | c in t.nodes :: t.nodes[c].parent == Some(p) <==> exists k :: t.nodes[p].kids.Has(k, c)
  {
    hide Transitions.Has;
    assert t0.RememberedAt(p);
    forall c: Id | c in t.nodes ensures t.nodes[c].parent == Some(p) <==> exists k :: t.nodes[p].kids.Has(k, c) {
      assert t0.RememberedAt(c);
    }
  }

  lemma StartsSpreading(t0: Tree, t: Tree, top: Id, mask: set<nat>)
    requires t0.Valid() && top in t0.nodes
    requires t == t0.(nodes := t0.nodes[top := t0.nodes[top].(any := t0.nodes[top].any + mask)])
    ensures SameLayouts(t0, t)
  {
  }

  lemma SpreadFromTop(t0: Tree, t: Tree, top: Id, mask: set<nat>, stack: seq<Id>)
    requires t0.Valid() && top in t0.nodes
    requires t == t0.(nodes := t0.nodes[top := t0.nodes[top].(any := t0.nodes[top].any + mask)])
    requires forall c :: c in stack <==> c in t.nodes && t.nodes[c].parent == Some(top)
    ensures Spreading(t0, t, top, mask, stack)
  {
    hide Transitions.Has;
    forall x | x in t.nodes && t.nodes[x].parent.Some? && t.nodes[x].parent.value in t.nodes
      ensures mask <= t.nodes[t.nodes[x].parent.value].any ==> mask <= t.nodes[x].any || x in stack
    {
      assert t0.CoveringAt(x);
    }
    forall x | x in stack ensures t0.Below(x, top) { assert t0.LinkedAt(x); }
  }

  lemma PoppedIsBelow(t0: Tree, t: Tree, top: Id, mask: set<nat>, stack: seq<Id>)
    requires Spreading(t0, t, top, mask, stack) && stack != []
    ensures stack[|stack| - 1] in t.nodes
  {
  }

  lemma SpreadPruned(t0: Tree, t: Tree, top: Id, mask: set<nat>, stack: seq<Id>)
    requires Spreading(t0, t, top, mask, stack) && stack != []
    requires var s := stack[|stack| - 1]; s in t.nodes && mask <= t.nodes[s].any
    ensures Spreading(t0, t, top, mask, stack[..|stack| - 1])
  {
    hide Tree.Valid;
    var rest, s := stack[..|stack| - 1], stack[|stack| - 1];
    assert stack == rest + [s];
  }

  lemma SpreadKeepsLayouts(t0: Tree, t: Tree, t': Tree, top: Id, mask: set<nat>, stack: seq<Id>)
    requires Spreading(t0, t, top, mask, stack) && stack != []
    requires stack[|stack| - 1] in t.nodes
    requires var s := stack[|stack| - 1];
      t' == t.(nodes := t.nodes[s := t.nodes[s].(any := t.nodes[s].any + mask)])
    ensures t0.Valid() && SameLayouts(t0, t')
  {
  }

  lemma SpreadMarked(t0: Tree, t: Tree, t': Tree, top: Id, mask: set<nat>, stack: seq<Id>, kids: seq<Id>)
    requires Spreading(t0, t, top, mask, stack) && stack != []
    requires stack[|stack| - 1] in t.nodes
    requires var s := stack[|stack| - 1];
      t' == t.(nodes := t.nodes[s := t.nodes[s].(any := t.nodes[s].any + mask)])
    requires SameLayouts(t0, t')
    requires forall c :: c in kids <==> c in t'.nodes && t'.nodes[c].parent == Some(stack[|stack| - 1])
    ensures Spreading(t0, t', top, mask, stack[..|stack| - 1] + kids)
  {
    hide Tree.Valid, Tree.Linked;
    var rest, s := stack[..|stack| - 1], stack[|stack| - 1];
    assert stack == rest + [s];
    forall x | x in kids ensures x in t0.nodes && t0.Linked() && t0.Below(x, top) {
      ChildIsBelow(t0, x, top);
    }
  }

  lemma ChildIsBelow(t: Tree, x: Id, top: Id)
    requires t.Valid() && x in t.nodes && t.nodes[x].parent.Some? && t.nodes[x].parent.value in t.nodes
    requires t.Below(t.nodes[x].parent.value, top)
    ensures t.Linked() && t.Below(x, top)
  {
  }

  lemma MarkedOneMore(t: Tree, s: Id, mask: set<nat>)
    requires s in t.nodes && !(mask <= t.nodes[s].any)
    ensures s in Unmarked(t, mask)
    ensures var t' := t.(nodes := t.nodes[s := t.nodes[s].(any := t.nodes[s].any + mask)]);
      Unmarked(t', mask) == Unmarked(t, mask) - {s}
  {
  }

  /** With nothing left on the stack, everything grown from `top` is marked. */
  lemma SpreadDone(t0: Tree, t: Tree, top: Id, mask: set<nat>)
    requires Spreading(t0, t, top, mask, [])
    ensures t == t0.Noted(top, mask)
  {
    hide Tree.Below;
    forall x | x in t0.nodes ensures t.nodes[x] == t0.Noted(top, mask).nodes[x] {
      if t0.Below(x, top) { MarkReaches(t0, t, top, mask, x); }
    }
    assert t.nodes == t0.Noted(top, mask).nodes;
  }

  lemma {:induction false} MarkReaches(t0: Tree, t: Tree, top: Id, mask: set<nat>, x: Id)
    requires Spreading(t0, t, top, mask, []) && x in t0.nodes && t0.Below(x, top)
    ensures t.nodes[x].any == t0.nodes[x].any + mask
    decreases x
  {
    assert t0.LinkedAt(x);
    if x != top { MarkReaches(t0, t, top, mask, t0.nodes[x].parent.value); }
  }
}
