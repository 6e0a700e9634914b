/** Hidden classes: the transition tree objects share their layouts in, and the record each
    layout keeps of the slots that may hold something other than a Number. */
module Layouts {
  import opened Wrappers

  type Key = seq<bv8>
  type Id = nat

  datatype Val = Number(n: int) | Other(o: int)

  const TRANSITION_LIST_MAX: nat := 16
  /** Slots from here on are not recorded: they may always hold anything. */
  const TRACKED: nat := 64

  // ---- The children a layout remembers, by weak links

  /** `Transitions`: `child` is weak, so it may name a layout that is gone. */
  datatype Transitions =
    | NoKids
    | One(key: Key, child: Id)
    | Short(list: seq<(Key, Id)>)
    | Table(entries: map<Key, Id>, sweepAt: nat)
  {
    predicate Has(k: Key, c: Id) {
      match this
      case NoKids => false
      case One(key, child) => (k, c) == (key, child)
      case Short(list) => (k, c) in list
      case Table(entries, _) => k in entries && entries[k] == c
    }

    predicate Ok() {
      Short? ==> forall i, j | 0 <= i < j < |list| :: list[i].0 != list[j].0
    }

    /** `get`: the live child under `k`. */
    function Get(live: set<Id>, k: Key): Option<Id> {
      var c :=
        match this
        case NoKids => None
        case One(key, child) => if key == k then Some(child) else None
        case Short(list) => FindIn(list, k)
        case Table(entries, _) => if k in entries then Some(entries[k]) else None;
      if c.Some? && c.value in live then c else None
    }

    /** `insert`. */
    function Insert(live: set<Id>, k: Key, c: Id): Transitions {
      match this
      case NoKids => One(k, c)
      case One(key, child) => if key == k || child !in live then One(k, c) else Short([(key, child), (k, c)])
      case Short(list) =>
        if FindIn(list, k).Some? then Short(ReplaceIn(list, k, c))
        else
          var kept := if |list| >= TRANSITION_LIST_MAX then Retain(list, live) else list;
          if |kept| < TRANSITION_LIST_MAX then Short(kept + [(k, c)])
          else
            var entries := AsMap(kept)[k := c];
            Table(entries, 2 * |entries|)
      case Table(entries, sweepAt) =>
        var grown := entries[k := c];
        if |grown| >= sweepAt then
          var swept := map x | x in grown && grown[x] in live :: grown[x];
          Table(swept, if 2 * |swept| > 2 * TRANSITION_LIST_MAX then 2 * |swept| else 2 * TRANSITION_LIST_MAX)
        else Table(grown, sweepAt)
    }
  }

  function FindIn(list: seq<(Key, Id)>, k: Key): Option<Id> {
    if list == [] then None else if list[0].0 == k then Some(list[0].1) else FindIn(list[1..], k)
  }

  function ReplaceIn(list: seq<(Key, Id)>, k: Key, c: Id): seq<(Key, Id)> {
    if list == [] then [] else if list[0].0 == k then [(k, c)] + list[1..] else [list[0]] + ReplaceIn(list[1..], k, c)
  }

  function Retain(list: seq<(Key, Id)>, live: set<Id>): seq<(Key, Id)> {
    if list == [] then []
    else if list[0].1 in live then [list[0]] + Retain(list[1..], live)
    else Retain(list[1..], live)
  }

  function AsMap(list: seq<(Key, Id)>): map<Key, Id> {
    if list == [] then map[] else AsMap(list[1..])[list[0].0 := list[0].1]
  }

  ghost predicate Distinct(list: seq<(Key, Id)>) {
    forall i, j | 0 <= i < j < |list| :: list[i].0 != list[j].0
  }

  lemma {:induction false} FindInIsMember(list: seq<(Key, Id)>, k: Key)
    requires Distinct(list)
    ensures forall c: Id :: FindIn(list, k) == Some(c) <==> (k, c) in list
    ensures FindIn(list, k).None? ==> forall i | 0 <= i < |list| :: list[i].0 != k
  {
    if list != [] {
      FindInIsMember(list[1..], k);
      assert list == [list[0]] + list[1..];
    }
  }

  lemma {:induction false} ReplaceInLaw(list: seq<(Key, Id)>, k: Key, c: Id)
    requires Distinct(list) && FindIn(list, k).Some?
    ensures var r := ReplaceIn(list, k, c);
      && |r| == |list| && (forall i | 0 <= i < |list| :: r[i] == if list[i].0 == k then (k, c) else list[i])
  {
    if list[0].0 != k {
      ReplaceInLaw(list[1..], k, c);
    }
  }

  lemma {:induction false} RetainLaw(list: seq<(Key, Id)>, live: set<Id>)
    requires Distinct(list)
    ensures var r := Retain(list, live);
      && Distinct(r) && forall e :: e in r <==> e in list && e.1 in live
  {
    if list != [] {
      RetainLaw(list[1..], live);
      assert list == [list[0]] + list[1..];
      var r, rest := Retain(list, live), Retain(list[1..], live);
      assert forall e | e in rest :: e in list[1..];
      assert forall i | 0 <= i < |rest| :: rest[i] in list[1..];
    }
  }

  lemma {:induction false} AsMapLaw(list: seq<(Key, Id)>)
    requires Distinct(list)
    ensures forall k, c: Id :: k in AsMap(list) && AsMap(list)[k] == c <==> (k, c) in list
  {
    if list != [] {
      AsMapLaw(list[1..]);
      assert list == [list[0]] + list[1..];
      forall e | e in list[1..] ensures e.0 != list[0].0 {}
      forall k | k in AsMap(list[1..]) ensures (k, AsMap(list[1..])[k]) in list[1..] {}
    }
  }

  /** `get` answers with exactly the remembered child that is still in use. */
  lemma GetIsLiveKid(t: Transitions, live: set<Id>, k: Key)
    requires t.Ok()
    ensures forall c: Id :: t.Get(live, k) == Some(c) <==> t.Has(k, c) && c in live
  {
    if t.Short? { FindInIsMember(t.list, k); }
  }

  /** Remembering a new child forgets no child still in use, whichever form the list has. */
  lemma InsertKeepsLiveKids(t: Transitions, live: set<Id>, key: Key, child: Id)
    requires t.Ok() && child in live && t.Get(live, key).None?
    ensures t.Insert(live, key, child).Ok()
    ensures forall k, c: Id | c in live ::
      t.Insert(live, key, child).Has(k, c) <==> t.Has(k, c) || (k, c) == (key, child)
    ensures forall k, c: Id :: t.Insert(live, key, child).Has(k, c) ==> t.Has(k, c) || (k, c) == (key, child)
  {
    GetIsLiveKid(t, live, key);
    match t
    case NoKids =>
    case One(_, _) =>
    case Short(list) => InsertShort(t, live, key, child);
    case Table(_, _) =>
  }

  lemma InsertShort(t: Transitions, live: set<Id>, key: Key, child: Id)
    requires t.Short? && t.Ok() && child in live
    requires forall c: Id | c in live :: !t.Has(key, c)
    ensures t.Insert(live, key, child).Ok()
    ensures forall k, c: Id | c in live ::
      t.Insert(live, key, child).Has(k, c) <==> t.Has(k, c) || (k, c) == (key, child)
    ensures forall k, c: Id :: t.Insert(live, key, child).Has(k, c) ==> t.Has(k, c) || (k, c) == (key, child)
  {
    var list := t.list;
    FindInIsMember(list, key);
    if FindIn(list, key).Some? {
      ReplaceInLaw(list, key, child);
      ReplacedMembers(list, ReplaceIn(list, key, child), key, child);
    } else {
      RetainLaw(list, live);
      var kept := if |list| >= TRANSITION_LIST_MAX then Retain(list, live) else list;
      assert forall i | 0 <= i < |kept| :: kept[i] in list;
      AsMapLaw(kept);
    }
  }

  lemma ReplacedMembers(list: seq<(Key, Id)>, r: seq<(Key, Id)>, key: Key, child: Id)
    requires Distinct(list) && |r| == |list| && exists i :: 0 <= i < |list| && list[i].0 == key
    requires forall i | 0 <= i < |list| :: r[i] == if list[i].0 == key then (key, child) else list[i]
    ensures Distinct(r) && forall e :: e in r <==> e == (key, child) || (e in list && e.0 != key)
  {
    var i :| 0 <= i < |list| && list[i].0 == key;
    assert r[i] == (key, child);
    forall e | e in list && e.0 != key ensures e in r {
      var j :| 0 <= j < |list| && list[j] == e;
      assert r[j] == e;
    }
  }

  // ---- The tree

  /** `any` holds the tracked slots that may hold something other than a Number. */
  datatype Node = Node(parent: Option<Id>, key: Key, len: nat, any: set<nat>, kids: Transitions)

  const EmptyLayout: Node := Node(None, [], 0, {}, NoKids)

  /** The layouts in use, by identity; `next` is an identity never used before. */
  datatype Tree = Tree(nodes: map<Id, Node>, next: Id) {
    /** A layout holds its parent, which is older and one property shorter. */
    ghost predicate LinkedAt(x: Id)
      requires x in nodes
    {
      x < next &&
      match nodes[x].parent
      case None => nodes[x].len == 0
      case Some(p) => p in nodes && p < x && nodes[x].len == nodes[p].len + 1
    }

    ghost predicate Linked() {
      forall x {:trigger LinkedAt(x)} | x in nodes :: LinkedAt(x)
    }

    /** The property names in slot order. */
    function Keys(x: Id): (keys: seq<Key>)
      requires Linked() && x in nodes
      ensures |keys| == nodes[x].len
      decreases x
    {
      assert LinkedAt(x);
      if nodes[x].parent.None? then [] else Keys(nodes[x].parent.value) + [nodes[x].key]
    }

    ghost predicate FreshKeyAt(x: Id)
      requires Linked() && x in nodes
    {
      assert LinkedAt(x);
      nodes[x].parent.Some? ==> nodes[x].key !in Keys(nodes[x].parent.value)
    }

    ghost predicate NoRepeats()
      requires Linked()
    {
      forall x {:trigger FreshKeyAt(x)} | x in nodes :: FreshKeyAt(x)
    }

    /** A layout in use is remembered by its parent, and what it remembers is right. */
    ghost predicate RememberedAt(x: Id)
      requires x in nodes
    {
      var n := nodes[x];
      && (n.parent.Some? && n.parent.value in nodes ==> nodes[n.parent.value].kids.Has(n.key, x))
      && n.kids.Ok()
      && (forall k, c: Id | n.kids.Has(k, c) ::
            c < next && (c in nodes ==> nodes[c].parent == Some(x) && nodes[c].key == k))
    }

    ghost predicate Remembered() {
      forall x {:trigger RememberedAt(x)} | x in nodes :: RememberedAt(x)
    }

    /** A child's record covers its parent's. */
    ghost predicate CoveringAt(x: Id)
      requires x in nodes
    {
      && (forall i | i in nodes[x].any :: i < TRACKED)
      && (nodes[x].parent.Some? && nodes[x].parent.value in nodes ==> nodes[nodes[x].parent.value].any <= nodes[x].any)
    }

    ghost predicate Covering() {
      forall x {:trigger CoveringAt(x)} | x in nodes :: CoveringAt(x)
    }

    ghost predicate Valid() {
      Linked() && NoRepeats() && Remembered() && Covering()
    }

    /** `walk_lookup`: newest property first. */
    function Find(x: Id, k: Key): (slot: Option<nat>)
      requires Linked() && x in nodes
      decreases x
    {
      assert LinkedAt(x);
      var n := nodes[x];
      if n.parent.None? then None else if n.key == k then Some(n.len - 1) else Find(n.parent.value, k)
    }

    /** Whether `x` is `top` or grew from it. */
    predicate Below(x: Id, top: Id)
      requires Linked() && x in nodes
      decreases x
    {
      assert LinkedAt(x);
      x == top || (nodes[x].parent.Some? && Below(nodes[x].parent.value, top))
    }

    // ---- Steps

    /** `Shape::root`. */
    function NewRoot(): (Tree, Id) {
      (Tree(nodes[next := EmptyLayout], next + 1), next)
    }

    /** `Shape::add`. */
    function Add(x: Id, k: Key): (Tree, Id)
      requires x in nodes
    {
      match nodes[x].kids.Get(nodes.Keys, k)
      case Some(c) => (this, c)
      case None => (Grown(x, k), next)
    }

    /** With a new child of `x`. */
    function Grown(x: Id, k: Key): Tree
      requires x in nodes
    {
      var child := Node(Some(x), k, nodes[x].len + 1, nodes[x].any, NoKids);
      var knowing := nodes[x].(kids := nodes[x].kids.Insert(nodes.Keys + {next}, k, next));
      Tree(nodes[x := knowing][next := child], next + 1)
    }

    /** `Shape::transition`. */
    function Transition(x: Id, k: Key): (Tree, Id)
      requires Linked() && x in nodes
    {
      if Find(x, k).Some? then (this, x) else Add(x, k)
    }

    /** What `note_non_numbers` comes to: `top` and all that grew from it learn `mask`. */
    function Noted(top: Id, mask: set<nat>): Tree
      requires Linked()
    {
      this.(nodes := map x | x in nodes :: if Below(x, top) then nodes[x].(any := nodes[x].any + mask) else nodes[x])
    }

    /** The last holder of a layout that nothing grew from lets go of it. */
    function Drop(x: Id): Tree {
      this.(nodes := nodes - {x})
    }

    // ---- What other holders of layouts can rely on

    /** The layout stays as it is, but for a record that only grows. */
    ghost predicate KeptIn(t': Tree, x: Id)
      requires x in nodes
    {
      && x in t'.nodes && nodes[x].parent == t'.nodes[x].parent && nodes[x].key == t'.nodes[x].key
      && nodes[x].len == t'.nodes[x].len && nodes[x].any <= t'.nodes[x].any
    }

    ghost predicate Evolves(t': Tree) {
      forall x {:trigger KeptIn(t', x)} | x in nodes :: KeptIn(t', x)
    }

    /** The same, layouts being let go as well: those in use on both sides are kept. */
    ghost predicate Agrees(t': Tree) {
      forall x {:trigger KeptIn(t', x)} | x in nodes && x in t'.nodes :: KeptIn(t', x)
    }
  }

  // ---- Names and slots

  lemma {:induction false} FindIsIndex(t: Tree, x: Id, k: Key)
    requires t.Linked() && t.NoRepeats() && x in t.nodes
    ensures t.Find(x, k).None? <==> k !in t.Keys(x)
    ensures forall i: nat :: t.Find(x, k) == Some(i) <==> i < t.nodes[x].len && t.Keys(x)[i] == k
    decreases x
  {
    assert t.LinkedAt(x) && t.FreshKeyAt(x);
    if t.nodes[x].parent.Some? {
      FindIsIndex(t, t.nodes[x].parent.value, k);
    }
  }

  lemma {:induction false} KeysDistinct(t: Tree, x: Id)
    requires t.Linked() && t.NoRepeats() && x in t.nodes
    ensures forall i, j | 0 <= i < j < t.nodes[x].len :: t.Keys(x)[i] != t.Keys(x)[j]
    decreases x
  {
    assert t.LinkedAt(x) && t.FreshKeyAt(x);
    if t.nodes[x].parent.Some? {
      KeysDistinct(t, t.nodes[x].parent.value);
    }
  }

  /** What a layout says of names and slots outlives every change to the tree. */
  lemma EvolvesKeeps(t: Tree, t': Tree, x: Id, k: Key)
    requires t.Linked() && t'.Linked() && x in t.nodes && t.Evolves(t')
    ensures x in t'.nodes && t'.Keys(x) == t.Keys(x) && t'.Find(x, k) == t.Find(x, k)
    decreases x
  {
    assert t.KeptIn(t', x);
    AgreesKeeps(t, t', x, k);
  }

  /** A layout still in use reads as it did, whichever others have come or gone. */
  lemma {:induction false} AgreesKeeps(t: Tree, t': Tree, x: Id, k: Key)
    requires t.Linked() && t'.Linked() && x in t.nodes && x in t'.nodes && t.Agrees(t')
    ensures t.KeptIn(t', x) && t'.Keys(x) == t.Keys(x) && t'.Find(x, k) == t.Find(x, k)
    decreases x
  {
    assert t.LinkedAt(x) && t.KeptIn(t', x) && t'.LinkedAt(x);
    if t.nodes[x].parent.Some? {
      AgreesKeeps(t, t', t.nodes[x].parent.value, k);
    }
  }

  lemma EvolvesItself(t: Tree)
    ensures t.Evolves(t)
  {
    forall x | x in t.nodes ensures t.KeptIn(t, x) {}
  }

  lemma EvolvesTransitive(t: Tree, t1: Tree, t2: Tree)
    requires t.Evolves(t1) && t1.Evolves(t2)
    ensures t.Evolves(t2)
  {
    forall x | x in t.nodes ensures t.KeptIn(t2, x) {
      assert t.KeptIn(t1, x) && t1.KeptIn(t2, x);
    }
  }

  /** No layout of `t` gains a repeat in `t'`. */
  lemma FreshKeyKept(t: Tree, t': Tree, x: Id)
    requires t.Linked() && t'.Linked() && t.NoRepeats() && x in t.nodes && t.Evolves(t')
    ensures x in t'.nodes && t'.FreshKeyAt(x)
  {
    hide Tree.Keys;
    assert t.LinkedAt(x) && t.FreshKeyAt(x) && t.KeptIn(t', x) && t'.LinkedAt(x);
    if t.nodes[x].parent.Some? { EvolvesKeeps(t, t', t.nodes[x].parent.value, []); }
  }

  // ---- Growing

  lemma NewRootLaw(t: Tree)
    requires t.Valid()
    ensures var (t', r) := t.NewRoot();
      t'.Valid() && t.Evolves(t') && r !in t.nodes && r in t'.nodes && t'.nodes[r].parent.None?
  {
    hide Transitions.Has, Transitions.Ok;
    NoKidsHasNone();
    var (t', r) := t.NewRoot();
    assert r in t.nodes ==> t.LinkedAt(r);
    forall x | x in t'.nodes ensures t'.LinkedAt(x) && (x in t.nodes ==> t.KeptIn(t', x)) {
      if x in t.nodes { assert t.LinkedAt(x); }
    }
    forall x | x in t'.nodes ensures t'.FreshKeyAt(x) { if x in t.nodes { FreshKeyKept(t, t', x); } }
    forall x | x in t'.nodes ensures t'.RememberedAt(x) && t'.CoveringAt(x) {
      if x in t.nodes { assert t.LinkedAt(x) && t.RememberedAt(x) && t.CoveringAt(x); }
    }
  }

  lemma NoKidsHasNone()
    ensures NoKids.Ok() && forall k, c: Id :: !NoKids.Has(k, c)
  {
  }

  /** Adding a key leads to the layout with that key last, new or remembered, and every
      other layout stays as it is. */
  lemma AddLaw(t: Tree, x: Id, k: Key)
    requires t.Valid() && x in t.nodes && k !in t.Keys(x)
    ensures var (t', c) := t.Add(x, k);
      && t'.Valid() && t.Evolves(t') && c in t'.nodes && t'.nodes[c].parent == Some(x) && t'.nodes[c].key == k
      && t'.Keys(c) == t.Keys(x) + [k] && x in t'.nodes && t.nodes[x].any <= t'.nodes[c].any
  {
    hide Transitions.Get, Transitions.Insert, Transitions.Has, Transitions.Ok;
    var kids := t.nodes[x].kids;
    var (t', c) := t.Add(x, k);
    assert t.RememberedAt(x);
    GetIsLiveKid(kids, t.nodes.Keys, k);
    if kids.Get(t.nodes.Keys, k).None? {
      GrownLinked(t, x, k);
      GrownFreshKeys(t, x, k);
      GrownRemembered(t, x, k);
      GrownCovering(t, x, k);
    } else {
      assert t.Evolves(t) by { forall y | y in t.nodes ensures t.KeptIn(t, y) {} }
      assert t.CoveringAt(c);
    }
    EvolvesKeeps(t, t', x, k);
    assert t'.LinkedAt(c) && t'.CoveringAt(c);
  }

  lemma GrownLinked(t: Tree, x: Id, k: Key)
    requires t.Linked() && x in t.nodes
    ensures var t' := t.Grown(x, k); t'.Linked() && t.Evolves(t') && t.next !in t.nodes
  {
    hide Transitions.Insert;
    var t' := t.Grown(x, k);
    assert t.next in t.nodes ==> t.LinkedAt(t.next);
    forall y | y in t'.nodes ensures t'.LinkedAt(y) && (y in t.nodes ==> t.KeptIn(t', y)) {
      assert t.LinkedAt(x);
      if y in t.nodes { assert t.LinkedAt(y); }
    }
  }

  lemma GrownFreshKeys(t: Tree, x: Id, k: Key)
    requires t.Valid() && x in t.nodes && k !in t.Keys(x) && t.Grown(x, k).Linked() && t.Evolves(t.Grown(x, k))
    ensures t.Grown(x, k).NoRepeats()
  {
    hide Transitions.Insert, Tree.Keys;
    var t' := t.Grown(x, k);
    forall y | y in t'.nodes ensures t'.FreshKeyAt(y) {
      if y in t.nodes { FreshKeyKept(t, t', y); } else { EvolvesKeeps(t, t', x, k); }
    }
  }

  lemma GrownCovering(t: Tree, x: Id, k: Key)
    requires t.Linked() && t.Covering() && x in t.nodes
    ensures t.Grown(x, k).Covering()
  {
    hide Transitions.Insert;
    var t' := t.Grown(x, k);
    assert t.next in t.nodes ==> t.LinkedAt(t.next);
    forall y | y in t'.nodes ensures t'.CoveringAt(y) {
      assert t.CoveringAt(x);
      if y in t.nodes { assert t.CoveringAt(y) && t.LinkedAt(y); }
    }
  }

  lemma GrownRemembered(t: Tree, x: Id, k: Key)
    requires t.Linked() && t.Remembered() && x in t.nodes && t.nodes[x].kids.Get(t.nodes.Keys, k).None?
    ensures t.Grown(x, k).Remembered()
  {
    hide Transitions.Get, Transitions.Insert, Transitions.Ok, Transitions.Has;
    var t', c := t.Grown(x, k), t.next;
    var kids, live := t.nodes[x].kids, t.nodes.Keys + {c};
    assert t.RememberedAt(x);
    assert c in t.nodes ==> t.LinkedAt(c);
    GetIsLiveKid(kids, t.nodes.Keys, k);
    GetIsLiveKid(kids, live, k);
    assert kids.Get(live, k).None? by {
      if kids.Get(live, k).Some? { assert kids.Has(k, kids.Get(live, k).value); }
    }
    InsertKeepsLiveKids(kids, live, k, c);
    NoKidsHasNone();
    forall y | y in t'.nodes ensures t'.RememberedAt(y) {
      if y in t.nodes { assert t.RememberedAt(y) && t.LinkedAt(y); }
    }
  }

  // ---- Recording

  lemma {:induction false} BelowEvolves(t: Tree, t': Tree, x: Id, top: Id)
    requires t.Linked() && t'.Linked() && x in t.nodes && t.Evolves(t')
    ensures x in t'.nodes && t'.Below(x, top) == t.Below(x, top)
    decreases x
  {
    assert t.LinkedAt(x) && t.KeptIn(t', x) && t'.LinkedAt(x);
    if x != top && t.nodes[x].parent.Some? {
      BelowEvolves(t, t', t.nodes[x].parent.value, top);
    }
  }

  lemma NotedKeepsLayouts(t: Tree, top: Id, mask: set<nat>)
    requires t.Linked()
    ensures var t' := t.Noted(top, mask); t'.Linked() && t.Evolves(t') && t'.nodes.Keys == t.nodes.Keys
  {
    var t' := t.Noted(top, mask);
    forall x | x in t.nodes ensures t'.LinkedAt(x) && t.KeptIn(t', x) {
      assert t.LinkedAt(x);
    }
  }

  lemma NotedLaw(t: Tree, top: Id, mask: set<nat>)
    requires t.Valid() && top in t.nodes && (forall i | i in mask :: i < TRACKED)
    ensures var t' := t.Noted(top, mask); t'.Valid() && t.Evolves(t') && top in t'.nodes && mask <= t'.nodes[top].any
  {
    hide Transitions.Has, Transitions.Ok;
    var t' := t.Noted(top, mask);
    NotedKeepsLayouts(t, top, mask);
    forall x | x in t'.nodes ensures t'.FreshKeyAt(x) { FreshKeyKept(t, t', x); }
    forall x | x in t'.nodes ensures t'.RememberedAt(x) && t'.CoveringAt(x) {
      assert t.LinkedAt(x) && t.RememberedAt(x) && t.CoveringAt(x);
    }
  }

  /** Where a record covers a mask, so do those of everything that grew from there: which is
      what lets the search stop at such a layout. */
  lemma {:induction false} CoverDescends(t: Tree, x: Id, top: Id)
    requires t.Linked() && t.Covering() && x in t.nodes && top in t.nodes && t.Below(x, top)
    ensures t.nodes[top].any <= t.nodes[x].any
    decreases x
  {
    assert t.LinkedAt(x) && t.CoveringAt(x);
    if x != top {
      CoverDescends(t, t.nodes[x].parent.value, top);
    }
  }

  lemma NotedCovered(t: Tree, top: Id, mask: set<nat>)
    requires t.Linked() && t.Covering() && top in t.nodes && mask <= t.nodes[top].any
    ensures t.Noted(top, mask) == t
  {
    forall x | x in t.nodes ensures t.Below(x, top) ==> t.nodes[x].any + mask == t.nodes[x].any {
      if t.Below(x, top) { CoverDescends(t, x, top); }
    }
    assert t.Noted(top, mask).nodes == t.nodes;
  }

  // ---- Letting go

  lemma DropLaw(t: Tree, x: Id)
    requires t.Valid() && (forall y | y in t.nodes :: t.nodes[y].parent != Some(x))
    ensures t.Drop(x).Valid() && t.Drop(x).Evolves(t) && t.Agrees(t.Drop(x))
  {
    hide Transitions.Has, Transitions.Ok;
    var t' := t.Drop(x);
    forall y | y in t'.nodes ensures t'.LinkedAt(y) && t'.KeptIn(t, y) { assert t.LinkedAt(y); }
    forall y | y in t'.nodes ensures t'.FreshKeyAt(y) {
      assert t.LinkedAt(y) && t'.LinkedAt(y) && t.FreshKeyAt(y);
      if t.nodes[y].parent.Some? { EvolvesKeeps(t', t, t.nodes[y].parent.value, []); }
    }
    forall y | y in t'.nodes ensures t'.RememberedAt(y) && t'.CoveringAt(y) {
      assert t.LinkedAt(y) && t.RememberedAt(y) && t.CoveringAt(y);
    }
  }
}
