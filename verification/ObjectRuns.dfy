/** Many objects over one realm's layouts, with the caches of many sites, all at once: each
    object does and answers what its own list of properties would. */
module ObjectRuns {
  import opened Wrappers
  import opened Layouts
  import opened LayoutIndex
  import opened LayoutTable
  import opened ObjectStorage
  import opened Objects
  import LayoutRuns

  /** What an object is to the program: its data properties in order, and its marks. */
  datatype Own = Own(props: Props, frozen: bool, nonExtensible: bool, readonly: set<Key>)
  {
    predicate Writable(k: Key) { IsPrivate(k) || !(frozen || k in readonly) }

    /** `is_plain_data_slot_or_absent`. */
    predicate Plain(k: Key) { !frozen && !nonExtensible && !(|k| >= 1 && k[0] == 0) && k !in readonly }

    function AfterSet(k: Key, v: Val): Own {
      if Writable(k) && (ValueIn(props, k).Some? || !nonExtensible) then this.(props := Put(props, k, v)) else this
    }
  }

  /** A place in the program that names one key, to read and write it or to define it. */
  datatype Site = Site(key: Key, defines: bool)

  /** `threshold` is the size from which the realm turns an object into a dictionary. */
  datatype PropOp =
    | Set(k: Key, v: Val, threshold: nat)
    | ForceSet(k: Key, v: Val)
    | Delete(k: Key)
    | Get(k: Key)
    | CachedGet(site: nat)
    | CachedSet(site: nat, v: Val)
    | CachedDefine(site: nat, v: Val, threshold: nat)
    | Mark(frozen: bool, nonExtensible: bool, readonly: set<Key>)

  datatype Answer = Done | Did(ok: bool) | Value(v: Option<Val>)

  /** The site an operation goes through. */
  function SiteOf(op: PropOp): Option<nat> {
    if op.CachedGet? || op.CachedSet? || op.CachedDefine? then Some(op.site) else None
  }

  predicate Fits(op: PropOp, sites: seq<Site>) {
    SiteOf(op).Some? ==> op.site < |sites| && sites[op.site].defines == op.CachedDefine?
  }

  /** The same operation on the list: caches, layouts and storage are nowhere to be seen. A
      cached write that misses goes the long way. */
  function Next(s: Own, op: PropOp, sites: seq<Site>): (Own, Answer)
    requires Fits(op, sites)
  {
    match op
    case Set(k, v, _) => (s.AfterSet(k, v), Done)
    case ForceSet(k, v) => (s.(props := Put(s.props, k, v)), Done)
    case Delete(k) =>
      (s.(props := Without(s.props, k), readonly := s.readonly - {k}), Did(ValueIn(s.props, k).Some?))
    case Get(k) => (s, Value(ValueIn(s.props, k)))
    case CachedGet(j) => (s, Value(ValueIn(s.props, sites[j].key)))
    case CachedSet(j, v) => (s.AfterSet(sites[j].key, v), Done)
    case CachedDefine(j, v, _) =>
      var k := sites[j].key;
      (if s.Plain(k) then s.(props := Put(s.props, k, v)) else s, Did(s.Plain(k)))
    case Mark(frozen, nonExtensible, readonly) => (Own(s.props, frozen, nonExtensible, readonly), Done)
  }

  /** What anybody else who holds layouts may do to them. */
  datatype Holding = NewRoot | Extend(x: Id, k: Key) | Learn(x: Id, slots: set<nat>) | LetGo(x: Id)

  datatype Act = OnObject(o: nat, op: PropOp) | OnLayouts(h: Holding)

  /** The program names objects and sites there are. */
  predicate Sensible(act: Act, objects: nat, sites: seq<Site>) {
    act.OnObject? ==> act.o < objects && Fits(act.op, sites)
  }

  predicate AllSensible(acts: seq<Act>, objects: nat, sites: seq<Site>) {
    forall n | 0 <= n < |acts| :: Sensible(acts[n], objects, sites)
  }

  /** One act on all the lists: at most one object's changes. */
  function Step(all: seq<Own>, act: Act, sites: seq<Site>): (r: (seq<Own>, Answer))
    requires Sensible(act, |all|, sites)
    ensures |r.0| == |all|
  {
    match act
    case OnObject(o, op) => var (own, a) := Next(all[o], op, sites); (all[o := own], a)
    case OnLayouts(_) => (all, Done)
  }

  function Steps(all: seq<Own>, acts: seq<Act>, sites: seq<Site>): (r: (seq<Own>, seq<Answer>))
    requires AllSensible(acts, |all|, sites)
    ensures |r.0| == |all|
  {
    if acts == [] then (all, [])
    else
      var n := |acts| - 1;
      assert Sensible(acts[n], |all|, sites);
      var (before, answers) := Steps(all, acts[..n], sites);
      var (after, a) := Step(before, acts[n], sites);
      (after, answers + [a])
  }

  /** An object nobody names in the run is as it was. */
  lemma {:induction false} StepsElsewhere(all: seq<Own>, acts: seq<Act>, sites: seq<Site>, i: nat)
    requires AllSensible(acts, |all|, sites) && i < |all|
    requires forall n | 0 <= n < |acts| :: !(acts[n].OnObject? && acts[n].o == i)
    ensures Steps(all, acts, sites).0[i] == all[i]
  {
    hide Next;
    if acts != [] {
      var n := |acts| - 1;
      assert Sensible(acts[n], |all|, sites);
      StepsElsewhere(all, acts[..n], sites, i);
    }
  }

  class Realm {
    const tree: ShapeTree
    const root: Id
    const objects: seq<Object>
    const caches: seq<PropertyCache>
    const sites: seq<Site>

    /** Objects and caches as they happen to be. */
    constructor (tree: ShapeTree, root: Id, objects: seq<Object>, caches: seq<PropertyCache>, sites: seq<Site>)
      requires tree.Valid() && root in tree.nodes && tree.nodes[root].parent.None?
      requires forall i | 0 <= i < |objects| :: objects[i].tree == tree && objects[i].Valid() && objects[i].Bounded()
      requires forall i, j | 0 <= i < j < |objects| :: objects[i] != objects[j]
      requires |caches| == |sites| && forall i, j | 0 <= i < j < |caches| :: caches[i] != caches[j]
      requires forall j | 0 <= j < |caches| ::
        if sites[j].defines then caches[j].Adds(tree.View(), sites[j].key)
        else caches[j].Finds(tree.View(), sites[j].key)
      ensures Valid()
      ensures this.tree == tree && this.root == root && this.objects == objects && this.caches == caches
      ensures this.sites == sites
    {
      this.tree, this.root, this.objects, this.caches, this.sites := tree, root, objects, caches, sites;
    }

    ghost predicate Apart()
      reads this
    {
      && |caches| == |sites|
      && (forall i, j | 0 <= i < j < |objects| :: objects[i] != objects[j])
      && (forall i, j | 0 <= i < j < |caches| :: caches[i] != caches[j])
      && (forall i | 0 <= i < |objects| :: objects[i].tree == tree)
    }

    ghost predicate CacheOk(j: nat)
      requires j < |caches| == |sites|
      reads this, caches, tree
    {
      if sites[j].defines then caches[j].Adds(tree.View(), sites[j].key) else caches[j].Finds(tree.View(), sites[j].key)
    }

    ghost predicate ObjectOk(i: nat)
      requires i < |objects|
      reads this, objects, set o | o in objects :: o.tree
    {
      objects[i].Valid() && objects[i].Bounded()
    }

    ghost predicate Valid()
      reads this, tree, objects, caches, set o | o in objects :: o.tree
    {
      && Apart() && tree.Valid() && root in tree.nodes && tree.nodes[root].parent.None?
      && (forall i: nat {:trigger ObjectOk(i)} | i < |objects| :: ObjectOk(i))
      && (forall j: nat {:trigger CacheOk(j)} | j < |caches| :: CacheOk(j))
    }

    /** What the program sees of an object. */
    ghost function ViewOf(x: Object): Own
      requires x.Valid()
      reads x, x.tree
    {
      Own(x.Props(), x.frozen, x.nonExtensible, x.readonly)
    }

    ghost function OwnAt(i: nat): Own
      requires i < |objects| && ObjectOk(i)
      reads this, objects, set o | o in objects :: o.tree
    {
      ViewOf(objects[i])
    }

    /** What was not touched is as it was, whoever made, marked or let go of layouts. */
    twostate lemma Untouched(i: nat)
      requires old(Valid()) && Apart() && i < |objects| && old(ObjectOk(i)) && unchanged(objects[i]) && tree.Valid()
      requires old(tree.View()).Agrees(tree.View()) && objects[i].shape in tree.nodes
      ensures ObjectOk(i) && OwnAt(i) == old(OwnAt(i))
    {
      objects[i].Undisturbed();
    }

    twostate lemma CacheKept(j: nat)
      requires old(Valid()) && Apart() && j < |caches| && old(CacheOk(j)) && unchanged(caches[j]) && tree.Valid()
      requires old(tree.View()).Agrees(tree.View()) && (caches[j].shape.Some? ==> caches[j].shape.value in tree.nodes)
      ensures CacheOk(j)
    {
      var x := caches[j].shape;
      if x.Some? {
        assert old(tree.View()).KeptIn(tree.View(), x.value);
        AgreesKeeps(old(tree.View()), tree.View(), x.value, sites[j].key);
      }
    }

    /** The same while no layout is let go. */
    twostate lemma StillHeld(i: nat)
      requires old(Valid()) && Apart() && i < |objects| && old(ObjectOk(i)) && unchanged(objects[i]) && tree.Valid()
      requires old(tree.View()).Evolves(tree.View())
      ensures ObjectOk(i) && OwnAt(i) == old(OwnAt(i))
    {
      assert old(tree.View()).KeptIn(tree.View(), objects[i].shape);
      Untouched(i);
    }

    twostate lemma StillCached(j: nat)
      requires old(Valid()) && Apart() && j < |caches| && old(CacheOk(j)) && unchanged(caches[j]) && tree.Valid()
      requires old(tree.View()).Evolves(tree.View())
      ensures CacheOk(j)
    {
      if caches[j].shape.Some? { assert old(tree.View()).KeptIn(tree.View(), caches[j].shape.value); }
      CacheKept(j);
    }

    // ---- One operation on one object

    ghost predicate Mine(x: Object)
      reads this, x, x.tree
    {
      && x.tree == tree && tree.Valid() && x.Valid() && x.Bounded()
      && root in tree.nodes && tree.nodes[root].parent.None?
    }

    /** An operation that goes through no site. */
    method Directly(x: Object, op: PropOp) returns (a: Answer)
      requires Mine(x) && SiteOf(op).None?
      modifies x, tree
      ensures Mine(x) && old(tree.View()).Evolves(tree.View())
      ensures (ViewOf(x), a) == Next(old(ViewOf(x)), op, sites)
    {
      hide Tree.Valid, Tree.Evolves, Dict.Ok, Dict.Props, ValueIn, Zip, Put, Without, Dict.Bounded;
      ghost var t := tree.View();
      EvolvesItself(t);
      a := Done;
      match op {
        case Set(k, v, threshold) =>
          x.MaybeConvertToDict(k, threshold);
          ghost var t1 := tree.View();
          x.Set(k, v);
          EvolvesTransitive(t, t1, tree.View());
        case ForceSet(k, v) => x.ForceSet(k, v);
        case Delete(k) =>
          var ok := x.Delete(root, k);
          a := Did(ok);
        case Get(k) =>
          var v := x.Get(k);
          a := Value(v);
        case Mark(frozen, nonExtensible, readonly) =>
          x.frozen, x.nonExtensible, x.readonly := frozen, nonExtensible, readonly;
      }
      x.LayoutKept(t, root);
    }

    /** An operation through a site, whose cache stays right. */
    method Through(x: Object, op: PropOp, cache: PropertyCache, site: Site) returns (a: Answer)
      requires Mine(x) && SiteOf(op).Some? && Fits(op, sites) && sites[op.site] == site
      requires if site.defines then cache.Adds(tree.View(), site.key) else cache.Finds(tree.View(), site.key)
      modifies x, tree, cache
      ensures Mine(x) && old(tree.View()).Evolves(tree.View())
      ensures if site.defines then cache.Adds(tree.View(), site.key) else cache.Finds(tree.View(), site.key)
      ensures (ViewOf(x), a) == Next(old(ViewOf(x)), op, sites)
    {
      hide Tree.Valid, Tree.Evolves, Dict.Ok, Dict.Props, ValueIn, Zip, Put, Without, Dict.Bounded,
        PropertyCache.Finds, PropertyCache.Adds;
      ghost var t := tree.View();
      EvolvesItself(t);
      a := Done;
      match op {
        case CachedGet(_) =>
          var v := x.CachedGet(site.key, cache);
          a := Value(v);
        case CachedSet(_, v) =>
          var ok := x.CachedSet(site.key, v, cache);
          if !ok {
            ghost var t1 := tree.View();
            x.Set(site.key, v);
            x.StillFinds(cache, t1, site.key);
            EvolvesTransitive(t, t1, tree.View());
          }
        case CachedDefine(_, v, threshold) =>
          var ok := x.InitDataCached(site.key, v, cache, threshold);
          a := Did(ok);
      }
      x.LayoutKept(t, root);
    }

    // ---- Everybody at once

    /** Object `o` does `op`; no other object notices. */
    method Act(o: nat, op: PropOp) returns (a: Answer)
      requires Valid() && o < |objects| && Fits(op, sites)
      modifies tree, objects[o], caches
      ensures Valid()
      ensures (OwnAt(o), a) == Next(old(OwnAt(o)), op, sites)
      ensures forall i: nat | i < |objects| && i != o :: OwnAt(i) == old(OwnAt(i))
    {
      hide Next, ObjectOk, CacheOk;
      if SiteOf(op).Some? { a := ActThrough(o, op); } else { a := ActDirectly(o, op); }
    }

    method ActDirectly(o: nat, op: PropOp) returns (a: Answer)
      requires Valid() && o < |objects| && SiteOf(op).None?
      modifies tree, objects[o]
      ensures Valid()
      ensures (OwnAt(o), a) == Next(old(OwnAt(o)), op, sites)
      ensures forall i: nat | i < |objects| && i != o :: OwnAt(i) == old(OwnAt(i))
    {
      hide Tree.Valid, Object.Valid, Object.Bounded, PropertyCache.Finds, PropertyCache.Adds, Next, Tree.Evolves;
      assert ObjectOk(o);
      a := Directly(objects[o], op);
      forall i: nat | i < |objects|
        ensures ObjectOk(i) && old(ObjectOk(i)) && (i != o ==> OwnAt(i) == old(OwnAt(i)))
      {
        assert old(ObjectOk(i));
        if i != o { StillHeld(i); }
      }
      forall i: nat | i < |caches| ensures CacheOk(i) {
        assert old(CacheOk(i));
        StillCached(i);
      }
    }

    method ActThrough(o: nat, op: PropOp) returns (a: Answer)
      requires Valid() && o < |objects| && Fits(op, sites) && SiteOf(op).Some?
      modifies tree, objects[o], caches[op.site]
      ensures Valid()
      ensures (OwnAt(o), a) == Next(old(OwnAt(o)), op, sites)
      ensures forall i: nat | i < |objects| && i != o :: OwnAt(i) == old(OwnAt(i))
    {
      hide Tree.Valid, Object.Valid, Object.Bounded, PropertyCache.Finds, PropertyCache.Adds, Next, Tree.Evolves;
      assert ObjectOk(o) && CacheOk(op.site);
      a := Through(objects[o], op, caches[op.site], sites[op.site]);
      forall i: nat | i < |objects|
        ensures ObjectOk(i) && old(ObjectOk(i)) && (i != o ==> OwnAt(i) == old(OwnAt(i)))
      {
        assert old(ObjectOk(i));
        if i != o { StillHeld(i); }
      }
      forall i: nat | i < |caches| ensures CacheOk(i) {
        assert old(CacheOk(i));
        if i != op.site { StillCached(i); }
      }
    }

    predicate Held(x: Id)
      reads this, objects, caches
    {
      x == root || (exists o | o in objects :: o.shape == x) || (exists c | c in caches :: c.shape == Some(x))
    }

    /** Somebody else does something to the layouts, if it can be done; no object notices. */
    method Share(h: Holding)
      requires Valid()
      modifies tree
      ensures Valid() && forall i: nat | i < |objects| :: OwnAt(i) == old(OwnAt(i))
    {
      hide Tree.Valid, Object.Valid, Object.Bounded, PropertyCache.Finds, PropertyCache.Adds;
      if h.LetGo? {
        LetGoOf(h.x);
        return;
      }
      ghost var t := tree.View();
      EvolvesItself(t);
      match h {
        case NewRoot => var _ := tree.Root();
        case Extend(x, k) => if x in tree.nodes && tree.nodes[x].len < U32 { var _ := tree.Transition(x, k); }
        case Learn(x, slots) =>
          if x in tree.nodes && forall i | i in slots :: i < TRACKED { tree.NoteNonNumbers(x, slots); }
      }
      assert t.KeptIn(tree.View(), root);
      forall i: nat | i < |objects| ensures ObjectOk(i) && old(ObjectOk(i)) && OwnAt(i) == old(OwnAt(i)) {
        assert old(ObjectOk(i));
        StillHeld(i);
      }
      forall i: nat | i < |caches| ensures CacheOk(i) {
        assert old(CacheOk(i));
        StillCached(i);
      }
    }

    /** A layout nobody holds any more goes. */
    method LetGoOf(x: Id)
      requires Valid()
      modifies tree
      ensures Valid() && forall i: nat | i < |objects| :: OwnAt(i) == old(OwnAt(i))
    {
      hide Tree.Valid, Object.Valid, Object.Bounded, PropertyCache.Finds, PropertyCache.Adds, Tree.Drop;
      if Held(x) || exists y | y in tree.nodes :: tree.nodes[y].parent == Some(x) { return; }
      ghost var t := tree.View();
      DropLaw(t, x);
      DropKeeps(t, x);
      HaveLayouts();
      tree.Release(x);
      forall i: nat | i < |objects| ensures ObjectOk(i) && old(ObjectOk(i)) && OwnAt(i) == old(OwnAt(i)) {
        assert old(ObjectOk(i)) && objects[i] in objects;
        Untouched(i);
      }
      forall i: nat | i < |caches| ensures CacheOk(i) {
        assert old(CacheOk(i)) && caches[i] in caches;
        CacheKept(i);
      }
    }

    lemma HaveLayouts()
      requires Valid()
      ensures forall i: nat | i < |objects| :: objects[i].shape in tree.nodes
      ensures forall j: nat | j < |caches| :: caches[j].shape.Some? ==> caches[j].shape.value in tree.nodes
    {
      forall i: nat | i < |objects| ensures objects[i].shape in tree.nodes { assert ObjectOk(i); }
      forall j: nat | j < |caches| ensures caches[j].shape.Some? ==> caches[j].shape.value in tree.nodes {
        assert CacheOk(j);
      }
    }

    lemma DropKeeps(t: Tree, x: Id)
      ensures forall y | y in t.nodes && y != x :: y in t.Drop(x).nodes && t.Drop(x).nodes[y] == t.nodes[y]
    {
    }

    // ---- Runs

    /** What the program sees of all objects. */
    ghost function Views(): (own: seq<Own>)
      requires Valid()
      reads this, tree, objects, caches, set o | o in objects :: o.tree
      ensures |own| == |objects| && forall i: nat | i < |objects| :: own[i] == OwnAt(i)
    {
      FirstViews(|objects|)
    }

    ghost function FirstViews(n: nat): (own: seq<Own>)
      requires Valid() && n <= |objects|
      reads this, tree, objects, caches, set o | o in objects :: o.tree
      ensures |own| == n && forall i: nat | i < n :: own[i] == OwnAt(i)
    {
      if n == 0 then []
      else
        assert ObjectOk(n - 1);
        FirstViews(n - 1) + [OwnAt(n - 1)]
    }

    /** The realm as a world of layouts and their holders. */
    ghost function WorldOf(): LayoutRuns.World
      requires Valid()
      reads this, tree, objects, caches, set o | o in objects :: o.tree
    {
      LayoutRuns.World(tree.View(),
        map i: nat | i < |objects| && !objects[i].isDict ::
          (assert ObjectOk(i); LayoutRuns.Holder(objects[i].shape, objects[i].slots.Values())))
    }

    /** Whatever run led here, the realm is a sound world: what a layout has as Number-only is a
        Number in each of its objects, and the properties are the same seen either way. */
    lemma RealmIsWorld(i: nat, slot: nat)
      requires Valid() && i < |objects| && !objects[i].isDict
      ensures LayoutRuns.WorldOk(WorldOf()) && LayoutRuns.PropsOf(WorldOf(), i) == OwnAt(i).props
      ensures slot < objects[i].slots.len && LayoutRuns.NumberOnly(tree.nodes[objects[i].shape], slot) ==>
        objects[i].slots.Values()[slot].Number?
    {
      var w := WorldOf();
      forall k | k in w.objects ensures LayoutRuns.HolderOk(w.tree, w.objects[k]) { assert ObjectOk(k); }
      assert ObjectOk(i);
      if slot < objects[i].slots.len && LayoutRuns.NumberOnly(tree.nodes[objects[i].shape], slot) {
        objects[i].NumberOnlyHolds(slot);
      }
    }

    method Do(act: Act) returns (a: Answer)
      requires Valid() && Sensible(act, |objects|, sites)
      modifies tree, objects, caches
      ensures Valid() && (Views(), a) == Step(old(Views()), act, sites)
    {
      hide Next, ObjectOk, CacheOk, Tree.Valid;
      match act {
        case OnObject(o, op) => a := Act(o, op);
        case OnLayouts(h) =>
          Share(h);
          a := Done;
      }
      assert Views() == Step(old(Views()), act, sites).0;
    }

    /** In every run of all objects' operations, through caches or not, with anything done to the
        layouts in between, each object does and answers what its list of properties would. */
    method Run(acts: seq<Act>) returns (answers: seq<Answer>)
      requires Valid() && AllSensible(acts, |objects|, sites)
      modifies tree, objects, caches
      ensures Valid() && (Views(), answers) == Steps(old(Views()), acts, sites)
    {
      hide Valid, Step;
      answers := [];
      ghost var start := Views();
      assert acts[..0] == [];
      for n := 0 to |acts|
        invariant Valid() && (Views(), answers) == Steps(start, acts[..n], sites)
      {
        assert Sensible(acts[n], |objects|, sites);
        assert acts[..n + 1][..n] == acts[..n];
        var a := Do(acts[n]);
        answers := answers + [a];
      }
      assert acts[..|acts|] == acts;
    }
  }
}
