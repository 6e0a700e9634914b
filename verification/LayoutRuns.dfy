/** Every run of everything that shares the layouts: objects made, grown, written, rebuilt and
    dropped, layouts made and let go. A slot a layout records as Number-only holds a Number in
    every object of that layout, all along. */
module LayoutRuns {
  import opened Wrappers
  import opened Layouts
  import opened ObjectStorage
  import opened Objects

  /** A shaped object's part in it. */
  datatype Holder = Holder(shape: Id, vals: seq<Val>)

  datatype World = World(tree: Tree, objects: map<nat, Holder>)

  datatype Op =
    | MakeRoot
    | Extend(x: Id, k: Key)
    | Release(x: Id)
    | AddKey(o: nat, k: Key, v: Val)
    | Write(o: nat, slot: nat, v: Val)
    | Take(o: nat, x: Id, vals: seq<Val>)
    | Discard(o: nat)

  ghost predicate HolderOk(t: Tree, h: Holder) {
    h.shape in t.nodes && |h.vals| == t.nodes[h.shape].len && NonNumbers(h.vals) <= t.nodes[h.shape].any
  }

  ghost predicate WorldOk(w: World) {
    w.tree.Valid() && forall o | o in w.objects :: HolderOk(w.tree, w.objects[o])
  }

  /** What the program guarantees: it adds keys it found absent, writes slots that exist, builds
      an object with as many values as its layout has keys, and layouts go only when nothing
      holds them. */
  ghost predicate Allowed(w: World, op: Op) {
    w.tree.Linked() &&
    match op
    case MakeRoot => true
    case Extend(x, k) => x in w.tree.nodes && k !in w.tree.Keys(x)
    case Release(x) =>
      && (forall y | y in w.tree.nodes :: w.tree.nodes[y].parent != Some(x))
      && (forall o | o in w.objects :: w.objects[o].shape != x)
    case AddKey(o, k, _) =>
      o in w.objects && w.objects[o].shape in w.tree.nodes && k !in w.tree.Keys(w.objects[o].shape)
    case Write(o, slot, _) => o in w.objects && slot < |w.objects[o].vals|
    case Take(_, x, vals) => x in w.tree.nodes && |vals| == w.tree.nodes[x].len
    case Discard(_) => true
  }

  /** Recording a write of `v`. */
  function Note(t: Tree, x: Id, slot: nat, v: Val): Tree
    requires t.Linked()
  {
    if v.Other? && slot < TRACKED then t.Noted(x, {slot}) else t
  }

  ghost function Apply(w: World, op: Op): World
    requires WorldOk(w) && Allowed(w, op)
  {
    match op
    case MakeRoot => w.(tree := w.tree.NewRoot().0)
    case Extend(x, k) => w.(tree := w.tree.Add(x, k).0)
    case Release(x) => w.(tree := w.tree.Drop(x))
    case AddKey(o, k, v) =>
      var h := w.objects[o];
      AddLaw(w.tree, h.shape, k);
      var (t, c) := w.tree.Add(h.shape, k);
      World(Note(t, c, |h.vals|, v), w.objects[o := Holder(c, h.vals + [v])])
    case Write(o, slot, v) =>
      var h := w.objects[o];
      World(Note(w.tree, h.shape, slot, v), w.objects[o := h.(vals := h.vals[slot := v])])
    case Take(o, x, vals) =>
      World(w.tree.Noted(x, NonNumbers(vals)), w.objects[o := Holder(x, vals)])
    case Discard(o) => w.(objects := w.objects - {o})
  }

  lemma HolderKept(t: Tree, t': Tree, h: Holder)
    requires HolderOk(t, h) && t.Evolves(t')
    ensures HolderOk(t', h)
  {
    assert t.KeptIn(t', h.shape);
  }

  lemma NoteLaw(t: Tree, x: Id, slot: nat, v: Val)
    requires t.Valid() && x in t.nodes
    ensures var t' := Note(t, x, slot, v);
      && t'.Valid() && t.Evolves(t') && x in t'.nodes && t'.nodes[x].len == t.nodes[x].len
      && t.nodes[x].any <= t'.nodes[x].any && (v.Other? && slot < TRACKED ==> slot in t'.nodes[x].any)
  {
    assert t.Linked();
    if v.Other? && slot < TRACKED { NotedLaw(t, x, {slot}); }
    else { forall y | y in t.nodes ensures t.KeptIn(t, y) {} }
    assert t.KeptIn(Note(t, x, slot, v), x);
  }

  /** One step of any kind keeps every record sound, and loses no layout an object holds. */
  lemma StepKeepsRecords(w: World, op: Op)
    requires WorldOk(w) && Allowed(w, op)
    ensures WorldOk(Apply(w, op))
  {
    hide Tree.Valid, Tree.Keys, Tree.Noted, Tree.Add, Tree.Linked;
    var w' := Apply(w, op);
    match op
    case MakeRoot =>
      NewRootLaw(w.tree);
      forall o | o in w.objects ensures HolderOk(w'.tree, w.objects[o]) { HolderKept(w.tree, w'.tree, w.objects[o]); }
    case Extend(x, k) =>
      AddLaw(w.tree, x, k);
      forall o | o in w.objects ensures HolderOk(w'.tree, w.objects[o]) { HolderKept(w.tree, w'.tree, w.objects[o]); }
    case Release(x) =>
      DropLaw(w.tree, x);
    case AddKey(o, k, v) => AddKeyKeeps(w, o, k, v);
    case Write(o, slot, v) => WriteKeeps(w, o, slot, v);
    case Take(o, x, vals) =>
      NotedLaw(w.tree, x, NonNumbers(vals));
      assert w.tree.KeptIn(w'.tree, x);
      forall p | p in w.objects ensures HolderOk(w'.tree, w.objects[p]) { HolderKept(w.tree, w'.tree, w.objects[p]); }
    case Discard(_) =>
  }

  lemma AddKeyKeeps(w: World, o: nat, k: Key, v: Val)
    requires WorldOk(w) && Allowed(w, AddKey(o, k, v))
    ensures WorldOk(Apply(w, AddKey(o, k, v)))
  {
    hide Tree.Valid, Tree.Keys, Tree.Noted, Tree.Add, Tree.Linked, Note;
    var h := w.objects[o];
    AddLaw(w.tree, h.shape, k);
    var (t, c) := w.tree.Add(h.shape, k);
    assert w.tree.KeptIn(t, h.shape);
    LenOfChild(t, c);
    NoteLaw(t, c, |h.vals|, v);
    var w' := Apply(w, AddKey(o, k, v));
    EvolvesTransitive(w.tree, t, w'.tree);
    forall p | p in w.objects ensures HolderOk(w'.tree, w.objects[p]) { HolderKept(w.tree, w'.tree, w.objects[p]); }
    forall i | i in NonNumbers(h.vals + [v]) ensures i in w'.tree.nodes[c].any {
      if i < |h.vals| { assert i in NonNumbers(h.vals); }
    }
  }

  lemma LenOfChild(t: Tree, c: Id)
    requires t.Valid() && c in t.nodes && t.nodes[c].parent.Some?
    ensures var p := t.nodes[c].parent.value; p in t.nodes && t.nodes[c].len == t.nodes[p].len + 1
  {
    assert t.LinkedAt(c);
  }

  lemma WriteKeeps(w: World, o: nat, slot: nat, v: Val)
    requires WorldOk(w) && Allowed(w, Write(o, slot, v))
    ensures WorldOk(Apply(w, Write(o, slot, v)))
  {
    hide Tree.Valid, Note, Tree.Linked;
    var h := w.objects[o];
    var w' := Apply(w, Write(o, slot, v));
    NoteLaw(w.tree, h.shape, slot, v);
    forall p | p in w.objects ensures HolderOk(w'.tree, w.objects[p]) { HolderKept(w.tree, w'.tree, w.objects[p]); }
    forall i | i in NonNumbers(h.vals[slot := v]) ensures i in w'.tree.nodes[h.shape].any {
      if i != slot { assert i in NonNumbers(h.vals); }
    }
  }

  ghost predicate AllowedRun(w: World, ops: seq<Op>)
    decreases |ops|
  {
    ops == [] || (WorldOk(w) && Allowed(w, ops[0]) && AllowedRun(Apply(w, ops[0]), ops[1..]))
  }

  ghost function Run(w: World, ops: seq<Op>): World
    requires AllowedRun(w, ops)
    decreases |ops|
  {
    if ops == [] then w else Run(Apply(w, ops[0]), ops[1..])
  }

  const Start: World := World(Tree(map[], 0), map[])

  predicate NumberOnly(layout: Node, slot: nat) { slot < TRACKED && slot !in layout.any }

  /** Whatever is done, a clear record means a Number in every object there is. */
  lemma NumberOnlyMeansNumbers(ops: seq<Op>, o: nat, slot: nat)
    requires AllowedRun(Start, ops)
    ensures var w := Run(Start, ops);
      && WorldOk(w)
      && (o in w.objects && slot < |w.objects[o].vals| && NumberOnly(w.tree.nodes[w.objects[o].shape], slot) ==>
            w.objects[o].vals[slot].Number?)
  {
    RunKeepsRecords(Start, ops);
    var w := Run(Start, ops);
    if o in w.objects {
      assert HolderOk(w.tree, w.objects[o]);
      assert slot in NonNumbers(w.objects[o].vals) ==> slot in w.tree.nodes[w.objects[o].shape].any;
    }
  }

  // ---- One object among the others

  /** The properties in slot order, as `Objects.Object.Props` has them. */
  ghost function PropsOf(w: World, o: nat): Props
    requires WorldOk(w) && o in w.objects
  {
    assert HolderOk(w.tree, w.objects[o]);
    Zip(w.tree.Keys(w.objects[o].shape), w.objects[o].vals)
  }

  predicate Touches(op: Op, o: nat) {
    match op
    case AddKey(p, _, _) => p == o
    case Write(p, _, _) => p == o
    case Take(p, _, _) => p == o
    case Discard(p) => p == o
    case _ => false
  }

  lemma StepAgrees(w: World, op: Op)
    requires WorldOk(w) && Allowed(w, op)
    ensures w.tree.Agrees(Apply(w, op).tree)
  {
    hide Tree.Valid, Tree.Keys, Tree.Noted, Tree.Add, Tree.Linked, Note;
    match op
    case MakeRoot => NewRootLaw(w.tree);
    case Extend(x, k) => AddLaw(w.tree, x, k);
    case Release(x) => DropLaw(w.tree, x);
    case AddKey(o, k, v) =>
      var h := w.objects[o];
      AddLaw(w.tree, h.shape, k);
      var (t, c) := w.tree.Add(h.shape, k);
      NoteLaw(t, c, |h.vals|, v);
      EvolvesTransitive(w.tree, t, Apply(w, op).tree);
    case Write(o, slot, v) => NoteLaw(w.tree, w.objects[o].shape, slot, v);
    case Take(_, x, vals) => NotedLaw(w.tree, x, NonNumbers(vals));
    case Discard(_) => EvolvesItself(w.tree);
  }

  lemma UntouchedByStep(w: World, op: Op, o: nat)
    requires WorldOk(w) && Allowed(w, op) && o in w.objects && !Touches(op, o)
    ensures var w' := Apply(w, op); WorldOk(w') && o in w'.objects && PropsOf(w', o) == PropsOf(w, o)
  {
    hide Tree.Noted, Tree.Add, Note;
    StepKeepsRecords(w, op);
    StepAgrees(w, op);
    var w' := Apply(w, op);
    assert w'.objects[o] == w.objects[o] && HolderOk(w.tree, w.objects[o]) && HolderOk(w'.tree, w.objects[o]);
    AgreesKeeps(w.tree, w'.tree, w.objects[o].shape, []);
  }

  /** An object has the properties it had after any run that does not touch it, whatever
      the other holders of its layouts do and whichever layouts they let go. */
  lemma {:induction false} UntouchedByRun(w: World, ops: seq<Op>, o: nat)
    requires WorldOk(w) && AllowedRun(w, ops) && o in w.objects && forall i | 0 <= i < |ops| :: !Touches(ops[i], o)
    ensures var w' := Run(w, ops); WorldOk(w') && o in w'.objects && PropsOf(w', o) == PropsOf(w, o)
    decreases |ops|
  {
    if ops != [] {
      UntouchedByStep(w, ops[0], o);
      UntouchedByRun(Apply(w, ops[0]), ops[1..], o);
    }
  }

  lemma {:induction false} RunKeepsRecords(w: World, ops: seq<Op>)
    requires WorldOk(w) && AllowedRun(w, ops)
    ensures WorldOk(Run(w, ops))
    decreases |ops|
  {
    if ops != [] {
      StepKeepsRecords(w, ops[0]);
      RunKeepsRecords(Apply(w, ops[0]), ops[1..]);
    }
  }
}
