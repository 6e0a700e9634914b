/** Objects over shared layouts: every operation, cached or not, on slots or on a dictionary,
    is an operation on one insertion-ordered list of properties. */
module Objects {
  import opened Wrappers
  import opened Layouts
  import opened LayoutIndex
  import opened LayoutTable
  import opened ObjectStorage
  import OwnKeys

  const MAX_SHAPED_LEN: nat := 65_535

  /** `is_private_key`: the key starts with a zero byte and a `#`. */
  predicate IsPrivate(k: Key) {
    |k| >= 2 && k[0] == 0 && k[1] == 0x23
  }

  /** The tracked slots holding something other than a Number. */
  function NonNumbers(vals: seq<Val>): (slots: set<nat>)
    ensures forall i: nat :: i in slots <==> i < |vals| && i < TRACKED && vals[i].Other?
  {
    set i: nat | i < |vals| && i < TRACKED && vals[i].Other?
  }

  /** The first `i` of `s`, without its `r`-th. */
  function CutTo<T>(s: seq<T>, r: nat, i: nat): seq<T>
    requires r < |s| && i <= |s|
  {
    if i <= r then s[..i] else s[..r] + s[r + 1..i]
  }

  lemma CutStep<T>(s: seq<T>, r: nat, i: nat)
    requires r < |s| && i < |s|
    ensures CutTo(s, r, i + 1) == CutTo(s, r, i) + if i == r then [] else [s[i]]
  {
  }

  lemma CutEnds<T>(s: seq<T>, r: nat)
    requires r < |s|
    ensures CutTo(s, r, 0) == [] && CutTo(s, r, |s|) == Cut(s, r)
  {
  }

  /** A site's memo of the last layout it resolved its key in. */
  class PropertyCache {
    var shape: Option<Id>
    var slot: nat
    var byAdd: bool

    /** What a cache used for lookups of `k` keeps. */
    ghost predicate Finds(t: Tree, k: Key)
      reads this
    {
      shape.Some? ==> t.Linked() && shape.value in t.nodes && t.Find(shape.value, k) == Some(slot)
    }

    /** What a cache used for adds of `k` keeps: its layout adds `k` to its parent's. */
    ghost predicate Adds(t: Tree, k: Key)
      reads this
    {
      shape.Some? ==> shape.value in t.nodes && t.nodes[shape.value].parent.Some? && t.nodes[shape.value].key == k
    }

    constructor ()
      ensures shape == None
    {
      shape, slot, byAdd := None, 0, false;
    }

    /** `lookup`. */
    method Lookup(tree: ShapeTree, x: Id, k: Key) returns (found: Option<nat>)
      requires tree.Valid() && x in tree.nodes && tree.nodes[x].len < U32 && Finds(tree.View(), k)
      modifies this, tree`probes, tree`indexes
      ensures tree.Valid() && found == tree.View().Find(x, k) && Finds(tree.View(), k)
    {
      if shape == Some(x) { return Some(slot); }
      found := tree.Lookup(x, k);
      if found.Some? { shape, slot, byAdd := Some(x), found.value, false; }
    }

    /** `transition_from`. */
    method TransitionFrom(tree: ShapeTree, from: Id) returns (to: Option<Id>)
      requires shape.Some? ==> shape.value in tree.nodes
      ensures to.Some? ==> to == shape && tree.nodes[to.value].parent == Some(from)
    {
      to := if shape.Some? && tree.nodes[shape.value].parent == Some(from) then shape else None;
    }

    /** `arm_transition`. */
    method ArmTransition(tree: ShapeTree, to: Id)
      requires to in tree.nodes
      modifies this
      ensures shape == Some(to)
    {
      slot := if tree.nodes[to].len == 0 then 0 else tree.nodes[to].len - 1;
      shape, byAdd := Some(to), true;
    }
  }

  class Object {
    const tree: ShapeTree
    var isDict: bool
    var shape: Id
    var slots: SlotStore
    var dict: Dict
    var frozen: bool
    var nonExtensible: bool
    var readonly: set<Key>

    /** Slots match the layout, which knows which of them may not be Numbers. */
    ghost predicate Fits()
      reads this, tree
    {
      && slots.Ok() && shape in tree.nodes && slots.len == tree.nodes[shape].len <= MAX_SHAPED_LEN
      && NonNumbers(slots.Values()) <= tree.nodes[shape].any
    }

    ghost predicate Valid()
      reads this, tree
    {
      && tree.Valid() && dict.Ok() && Fits()
      && (isDict ==> tree.nodes[shape].parent.None?)
    }

    /** The own data properties in insertion order. */
    ghost function Props(): Props
      reads this, tree
      requires Valid()
    {
      if isDict then dict.Props() else Zip(tree.View().Keys(shape), slots.Values())
    }

    /** Whether `set` of `k` may store. */
    predicate Writable(k: Key)
      reads this
    {
      IsPrivate(k) || !(frozen || k in readonly)
    }

    /** A slot the layout still records as Number-only holds a Number, in every object. */
    lemma NumberOnlyHolds(i: nat)
      requires Valid() && i < slots.len && i < TRACKED && i !in tree.nodes[shape].any
      ensures slots.Values()[i].Number?
    {
      assert i !in NonNumbers(slots.Values());
    }

    /** Whatever another object does to the shared layouts, making them or letting them go,
        leaves this one as it was: its own layout it holds. */
    twostate lemma Undisturbed()
      requires old(Valid()) && tree.Valid() && old(tree.View()).Agrees(tree.View())
      requires unchanged(this) && shape in tree.nodes
      ensures Valid() && Props() == old(Props())
    {
      AgreesKeeps(old(tree.View()), tree.View(), shape, []);
      assert tree.View().LinkedAt(shape);
    }

    /** `Object::new`. */
    constructor (tree: ShapeTree, root: Id)
      requires tree.Valid() && root in tree.nodes && tree.nodes[root].parent.None?
      ensures Valid() && Props() == [] && this.tree == tree && !isDict && !frozen && !nonExtensible && readonly == {}
    {
      this.tree := tree;
      isDict, shape, slots, dict := false, root, NoSlots, Dict([], map[]);
      frozen, nonExtensible, readonly := false, false, {};
      new;
      assert tree.View().LinkedAt(root);
    }

    /** Where the layout puts `k`, in terms of the properties. */
    lemma SlotIsPosition(k: Key)
      requires Valid() && !isDict
      ensures var at := tree.View().Find(shape, k); var keys := tree.View().Keys(shape);
        && |keys| == slots.len && Distincts(keys)
        && (at.Some? ==>
              at.value < slots.len && keys[at.value] == k && ValueIn(Props(), k) == Some(slots.Values()[at.value]))
        && (at.None? ==> k !in keys && ValueIn(Props(), k) == None)
    {
      var at, keys := tree.View().Find(shape, k), tree.View().Keys(shape);
      FindIsIndex(tree.View(), shape, k);
      KeysDistinct(tree.View(), shape);
      if at.Some? {
        assert keys[at.value] == k;
        ZipWrite(keys, slots.Values(), at.value, UNDEFINED);
      } else {
        ZipPush(keys, slots.Values(), k, UNDEFINED);
      }
    }

    /** `get`. */
    method Get(k: Key) returns (v: Option<Val>)
      requires Valid()
      modifies tree`probes, tree`indexes
      ensures Valid() && tree.View() == old(tree.View()) && Props() == old(Props())
      ensures v == ValueIn(Props(), k)
    {
      hide Tree.Valid, Tree.Keys, Tree.Find, Dict.Ok, Dict.Props, ValueIn, Zip;
      if isDict {
        DictGet(dict, k);
        return if k in dict.entries then Some(dict.entries[k].value) else None;
      }
      SlotIsPosition(k);
      var slot := tree.Lookup(shape, k);
      if slot.None? { return None; }
      v := slots.Get(slot.value);
    }

    /** `cached_get`: the uncached answer, from any cache of this key. */
    method CachedGet(k: Key, cache: PropertyCache) returns (v: Option<Val>)
      requires Valid() && cache.Finds(tree.View(), k)
      modifies cache, tree`probes, tree`indexes
      ensures Valid() && tree.View() == old(tree.View()) && Props() == old(Props())
      ensures v == ValueIn(Props(), k) && cache.Finds(tree.View(), k)
    {
      hide Tree.Valid, Tree.Keys, Tree.Find, Dict.Ok, Dict.Props, ValueIn, Zip;
      if isDict {
        DictGet(dict, k);
        return if k in dict.entries then Some(dict.entries[k].value) else None;
      }
      SlotIsPosition(k);
      var slot := cache.Lookup(tree, shape, k);
      if slot.None? { return None; }
      v := slots.Get(slot.value);
    }

    /** `note_slot`: every write of a slot goes through here. */
    method NoteSlot(i: nat, v: Val)
      requires tree.Valid() && shape in tree.nodes
      modifies tree`nodes
      ensures tree.Valid() && old(tree.View()).Evolves(tree.View()) && shape in tree.nodes
      ensures v.Other? && i < TRACKED ==> i in tree.nodes[shape].any
    {
      if v.Other? && i < TRACKED {
        tree.NoteNonNumbers(shape, {i});
      } else {
        assert tree.View().Evolves(tree.View()) by {
          forall x | x in tree.nodes ensures tree.View().KeptIn(tree.View(), x) {}
        }
      }
    }

    /** `set_slot`: the property whose slot it is. */
    method SetSlot(i: nat, v: Val) returns (ok: bool)
      requires Valid()
      modifies this`slots, tree`nodes
      ensures Valid() && old(tree.View()).Evolves(tree.View()) && ok == (i < old(slots.len))
      ensures ok ==>
        !isDict && i < |tree.View().Keys(shape)| && Props() == Put(old(Props()), tree.View().Keys(shape)[i], v)
      ensures !ok ==> slots == old(slots) && tree.nodes == old(tree.nodes)
    {
      hide Tree.Valid, Tree.Keys, Dict.Ok, Dict.Props, Put, Zip;
      ghost var was, t := slots.Values(), tree.View();
      tree.ValidParts();
      DictHasNoSlots();
      if i >= slots.len {
        EvolvesItself(t);
        return false;
      }
      LayoutDistinct();
      ZipWrite(t.Keys(shape), was, i, v);
      slots := slots.Write(i, v);
      NoteSlot(i, v);
      LayoutKept(t, shape);
      assert NonNumbers(slots.Values()) <= NonNumbers(was) + (if v.Other? && i < TRACKED then {i} else {});
      ok := true;
    }

    lemma LayoutDistinct()
      requires Valid()
      ensures Distincts(tree.View().Keys(shape)) && |tree.View().Keys(shape)| == slots.len
    {
      KeysDistinct(tree.View(), shape);
    }

    lemma DictHasNoSlots()
      requires Valid()
      ensures isDict ==> slots.len == 0 && slots.Values() == [] && tree.View().Keys(shape) == []
    {
      assert tree.View().LinkedAt(shape);
    }

    /** A layout of the tree as it was is the same now. */
    lemma LayoutKept(t: Tree, x: Id)
      requires t.Valid() && tree.Valid() && t.Evolves(tree.View()) && x in t.nodes
      ensures x in tree.nodes && tree.nodes[x].len == t.nodes[x].len
      ensures tree.nodes[x].parent == t.nodes[x].parent && tree.nodes[x].key == t.nodes[x].key
      ensures tree.View().Keys(x) == t.Keys(x) && t.nodes[x].any <= tree.nodes[x].any
    {
      assert t.KeptIn(tree.View(), x);
      EvolvesKeeps(t, tree.View(), x, []);
    }

    /** `write_existing`. */
    method WriteExisting(k: Key, v: Val) returns (ok: bool)
      requires Valid()
      modifies this`slots, this`dict, tree
      ensures Valid() && old(tree.View()).Evolves(tree.View())
      ensures ok == ValueIn(old(Props()), k).Some?
      ensures Props() == if ok then Put(old(Props()), k, v) else old(Props())
      ensures old(Bounded()) ==> Bounded()
      ensures !ok && !isDict ==> tree.nodes == old(tree.nodes)
    {
      hide Tree.Valid, Tree.Keys, Tree.Find, Dict.Ok, Dict.Props, ValueIn, Zip, Put;
      ghost var t := tree.View();
      EvolvesItself(t);
      if isDict {
        DictGet(dict, k);
        if k !in dict.entries { return false; }
        DictWrite(dict, k, v);
        dict := dict.Write(k, v);
        return true;
      }
      SlotIsPosition(k);
      var slot := tree.Lookup(shape, k);
      if slot.None? { return false; }
      ghost var t1 := tree.View();
      ok := SetSlot(slot.value, v);
      LayoutKept(t, shape);
    }

    /** `add_new`, of a key the object lacks. */
    method AddNew(k: Key, v: Val)
      requires Valid() && ValueIn(Props(), k).None?
      modifies this`isDict, this`shape, this`slots, this`dict, tree
      ensures Valid() && old(tree.View()).Evolves(tree.View())
      ensures Props() == Put(old(Props()), k, v)
      ensures old(Bounded()) ==> Bounded()
      ensures isDict || tree.nodes[shape].key == k
    {
      hide Tree.Valid, Tree.Keys, Tree.Find, Dict.Ok, Dict.Props, ValueIn, Zip, Put;
      ghost var t := tree.View();
      EvolvesItself(t);
      if !isDict && slots.len >= MAX_SHAPED_LEN { ConvertToDict(); }
      LayoutKept(t, old(shape));
      if isDict {
        DictGet(dict, k);
        DictInsert(dict, k, v);
        dict := dict.Insert(k, v);
      } else {
        SlotIsPosition(k);
        var child := tree.Add(shape, k);
        LayoutKept(t, shape);
        ghost var t1 := tree.View();
        Adopt(k, child, v);
        EvolvesTransitive(t, t1, tree.View());
        LayoutKept(t1, child);
      }
    }

    /** Taking the child layout that adds `k`, with `v` in the new slot. */
    method Adopt(k: Key, child: Id, v: Val)
      requires tree.Valid() && dict.Ok() && Fits() && !isDict && slots.len < MAX_SHAPED_LEN
      requires child in tree.nodes && tree.nodes[child].parent == Some(shape) && tree.nodes[child].key == k
      modifies this`shape, this`slots, tree`nodes
      ensures Valid() && old(tree.View()).Evolves(tree.View()) && shape == child
      ensures Props() == Put(old(Props()), k, v)
    {
      hide Tree.Valid, Tree.Keys, Dict.Ok, Dict.Props, Put, Zip;
      ghost var was, t := slots.Values(), tree.View();
      tree.ValidParts();
      ChildKeys(child);
      ZipPush(t.Keys(shape), was, k, v);
      var i := slots.len;
      shape := child;
      slots := slots.Push(v);
      NoteSlot(i, v);
      LayoutKept(t, child);
      assert NonNumbers(slots.Values()) <= NonNumbers(was) + (if v.Other? && i < TRACKED then {i} else {});
    }

    lemma ChildKeys(child: Id)
      requires tree.Valid() && child in tree.nodes && tree.nodes[child].parent.Some?
      ensures var p := tree.nodes[child].parent.value; var t := tree.View();
        && p in tree.nodes && tree.nodes[child].len == tree.nodes[p].len + 1
        && t.Keys(child) == t.Keys(p) + [tree.nodes[child].key] && tree.nodes[child].key !in t.Keys(p)
        && tree.nodes[p].any <= tree.nodes[child].any
    {
      var t := tree.View();
      assert t.LinkedAt(child) && t.FreshKeyAt(child) && t.CoveringAt(child);
    }

    /** No more than this many entries to enumerate, tombstones counted. */
    predicate Bounded()
      reads this
    {
      dict.Bounded()
    }

    /** `convert_to_dict`. */
    method ConvertToDict()
      requires Valid()
      modifies this`isDict, this`shape, this`slots, this`dict, tree
      ensures Valid() && old(tree.View()).Evolves(tree.View()) && isDict
      ensures Props() == old(Props())
      ensures old(isDict) || |dict.order| == |dict.entries|
      ensures old(Bounded()) ==> Bounded()
    {
      hide Tree.Valid, Tree.Keys, Tree.Find, Dict.Ok, Dict.Props, ValueIn, Zip, Put;
      EvolvesItself(tree.View());
      if isDict { return; }
      var d := AsDict();
      slots := NoSlots;
      dict := d;
      shape := tree.Root();
      EmptyRoot();
      isDict := true;
    }

    /** The properties put into a dictionary one by one, in slot order. */
    method AsDict() returns (d: Dict)
      requires Valid() && !isDict
      modifies tree`probes, tree`indexes
      ensures Valid() && tree.View() == old(tree.View())
      ensures d.Ok() && d.Props() == Props() && |d.order| == |d.entries|
    {
      hide Tree.Valid, Tree.Keys, Tree.Find, Dict.Ok, Dict.Props, ValueIn, Zip, Put;
      ghost var t, vals := tree.View(), slots.Values();
      LayoutDistinct();
      tree.ValidParts();
      var keys := tree.View().Keys(shape);
      d := Dict([], map[]);
      EmptyDict();
      assert keys[..0] == [] && vals[..0] == [];
      for i := 0 to |keys|
        invariant tree.Valid() && tree.View() == t
        invariant d.Ok() && d.Props() == Zip(keys[..i], vals[..i]) && |d.order| == |d.entries| == i
      {
        FindAt(keys[i], i);
        var slot := tree.Lookup(shape, keys[i]);
        var v := slots.Get(slot.value).value;
        DictGet(d, keys[i]);
        ZipPush(keys[..i], vals[..i], keys[i], v);
        DictInsert(d, keys[i], v);
        d := d.Insert(keys[i], v);
        assert keys[..i + 1] == keys[..i] + [keys[i]] && vals[..i + 1] == vals[..i] + [v];
      }
      assert keys[..|keys|] == keys && vals[..|keys|] == vals;
    }

    lemma EmptyRoot()
      requires tree.Valid() && shape in tree.nodes && tree.nodes[shape].parent.None?
      ensures tree.nodes[shape].len == 0 && tree.View().Keys(shape) == []
    {
      assert tree.View().LinkedAt(shape);
    }

    lemma FindAt(k: Key, i: nat)
      requires Valid() && i < slots.len && tree.View().Keys(shape)[i] == k
      ensures tree.View().Find(shape, k) == Some(i)
    {
      FindIsIndex(tree.View(), shape, k);
    }

    lemma EmptyDict()
      ensures Dict([], map[]).Ok() && Dict([], map[]).Props() == Zip([], [])
    {
    }

    /** What `set` leaves. */
    ghost function AfterSet(k: Key, v: Val): Props
      reads this, tree
      requires Valid()
    {
      if Writable(k) && (ValueIn(Props(), k).Some? || !nonExtensible) then Put(Props(), k, v) else Props()
    }

    /** `set`. */
    method Set(k: Key, v: Val)
      requires Valid()
      modifies this`isDict, this`shape, this`slots, this`dict, tree
      ensures Valid() && old(tree.View()).Evolves(tree.View())
      ensures Props() == old(AfterSet(k, v))
      ensures old(Bounded()) ==> Bounded()
      ensures isDict || shape == old(shape) || tree.nodes[shape].key == k
    {
      hide Tree.Valid, Dict.Props, ValueIn, Zip, Put;
      ghost var t := tree.View();
      EvolvesItself(t);
      if !Writable(k) { return; }
      var known := WriteExisting(k, v);
      if known { return; }
      if !nonExtensible {
        ghost var t1 := tree.View();
        AddNew(k, v);
        EvolvesTransitive(t, t1, tree.View());
      }
    }

    /** `force_set`: past the guards. */
    method ForceSet(k: Key, v: Val)
      requires Valid()
      modifies this`isDict, this`shape, this`slots, this`dict, tree
      ensures Valid() && old(tree.View()).Evolves(tree.View())
      ensures Props() == Put(old(Props()), k, v)
      ensures old(Bounded()) ==> Bounded()
    {
      hide Tree.Valid, Dict.Props, ValueIn, Zip, Put;
      ghost var t := tree.View();
      var known := WriteExisting(k, v);
      if !known {
        ghost var t1 := tree.View();
        AddNew(k, v);
        EvolvesTransitive(t, t1, tree.View());
      }
    }

    /** `maybe_convert_to_dict`: the storage may change, the properties do not. */
    method MaybeConvertToDict(k: Key, threshold: nat)
      requires Valid()
      modifies this`isDict, this`shape, this`slots, this`dict, tree
      ensures Valid() && old(tree.View()).Evolves(tree.View())
      ensures Props() == old(Props())
      ensures old(Bounded()) ==> Bounded()
      ensures old(isDict) ==> isDict
    {
      hide Tree.Valid, Dict.Props, ValueIn, Zip;
      EvolvesItself(tree.View());
      ghost var t := tree.View();
      if !isDict && slots.len >= threshold && !nonExtensible && !frozen && k !in readonly {
        var found := tree.Lookup(shape, k);
        if found.None? { ConvertToDict(); }
      }
    }

    /** `cached_set`: an in-place write, or nothing. */
    method CachedSet(k: Key, v: Val, cache: PropertyCache) returns (ok: bool)
      requires Valid() && cache.Finds(tree.View(), k)
      modifies cache, this`slots, tree
      ensures Valid() && old(tree.View()).Evolves(tree.View()) && cache.Finds(tree.View(), k)
      ensures ok == (Writable(k) && !isDict && ValueIn(old(Props()), k).Some?)
      ensures Props() == if ok then Put(old(Props()), k, v) else old(Props())
    {
      hide Tree.Valid, Tree.Keys, Tree.Find, Dict.Ok, Dict.Props, ValueIn, Zip, Put;
      ghost var t := tree.View();
      EvolvesItself(t);
      if !Writable(k) || isDict { return false; }
      SlotIsPosition(k);
      var slot := cache.Lookup(tree, shape, k);
      if slot.None? { return false; }
      ok := SetSlot(slot.value, v);
      LayoutKept(t, shape);
      StillFinds(cache, t, k);
    }

    /** A cache stays right as the layouts evolve. */
    lemma StillFinds(cache: PropertyCache, t: Tree, k: Key)
      requires cache.Finds(t, k) && t.Evolves(tree.View()) && tree.Valid()
      ensures cache.Finds(tree.View(), k)
    {
      if cache.shape.Some? {
        assert t.KeptIn(tree.View(), cache.shape.value);
        EvolvesKeeps(t, tree.View(), cache.shape.value, k);
      }
    }

    /** `is_plain_data_slot_or_absent`. */
    predicate PlainStore(k: Key)
      reads this
    {
      !frozen && !nonExtensible && !(|k| >= 1 && k[0] == 0) && k !in readonly
    }

    /** `init_data_cached`: the add or write an uncached define does, whether or not the
        transition cache hits. */
    method InitDataCached(k: Key, v: Val, cache: PropertyCache, threshold: nat) returns (ok: bool)
      requires Valid() && cache.Adds(tree.View(), k)
      modifies cache, this`isDict, this`shape, this`slots, this`dict, tree
      ensures Valid() && old(tree.View()).Evolves(tree.View()) && cache.Adds(tree.View(), k)
      ensures ok == old(PlainStore(k))
      ensures Props() == if ok then Put(old(Props()), k, v) else old(Props())
      ensures old(Bounded()) ==> Bounded()
    {
      hide Tree.Valid, Tree.Keys, Tree.Find, Dict.Ok, Dict.Props, ValueIn, Zip, Put;
      ghost var t := tree.View();
      EvolvesItself(t);
      if !PlainStore(k) { return false; }
      if !isDict && slots.len < threshold && slots.len < MAX_SHAPED_LEN {
        var to := cache.TransitionFrom(tree, shape);
        if to.Some? {
          Adopt(k, to.value, v);
          StillAdds(cache, t, k);
          return true;
        }
      }
      MaybeConvertToDict(k, threshold);
      ghost var t1 := tree.View();
      var before := if isDict then None else Some(shape);
      Set(k, v);
      EvolvesTransitive(t, t1, tree.View());
      StillAdds(cache, t, k);
      ok := true;
      if before.Some? && !isDict && tree.nodes[shape].parent == before {
        assert tree.View().LinkedAt(shape) by { tree.ValidParts(); }
        cache.ArmTransition(tree, shape);
      }
    }

    lemma StillAdds(cache: PropertyCache, t: Tree, k: Key)
      requires cache.Adds(t, k) && t.Evolves(tree.View()) && tree.Valid()
      ensures cache.Adds(tree.View(), k)
    {
      if cache.shape.Some? { assert t.KeptIn(tree.View(), cache.shape.value); }
    }

    // ---- Deletion

    /** `delete`: the key goes, with its mark, and no more tombstones stay than there is room
        for. */
    method Delete(root: Id, k: Key) returns (removed: bool)
      requires Valid() && root in tree.nodes && tree.nodes[root].parent.None?
      modifies this`shape, this`slots, this`dict, this`readonly, tree
      ensures Valid() && old(tree.View()).Evolves(tree.View())
      ensures Props() == Without(old(Props()), k) && removed == ValueIn(old(Props()), k).Some?
      ensures readonly == old(readonly) - {k}
      ensures old(Bounded()) || (isDict && removed) ==> Bounded()
    {
      hide Tree.Valid, Tree.Keys, Tree.Find, Dict.Ok, Dict.Props, ValueIn, Zip, Without;
      readonly := readonly - {k};
      ghost var t := tree.View();
      EvolvesItself(t);
      AbsentIsKept(Props(), k);
      if isDict {
        DictGet(dict, k);
        if k !in dict.entries { return false; }
        DictRemove(dict, k);
        dict := dict.Remove(k);
        CompactOrder();
        return true;
      }
      SlotIsPosition(k);
      var slot := tree.Lookup(shape, k);
      if slot.None? { return false; }
      RebuildWithout(root, k, slot.value);
      removed := true;
    }

    /** `delete_data`: the same but for the mark and the tombstones. */
    method DeleteData(root: Id, k: Key)
      requires Valid() && root in tree.nodes && tree.nodes[root].parent.None?
      modifies this`shape, this`slots, this`dict, tree
      ensures Valid() && old(tree.View()).Evolves(tree.View())
      ensures Props() == Without(old(Props()), k)
    {
      hide Tree.Valid, Tree.Keys, Tree.Find, Dict.Ok, Dict.Props, ValueIn, Zip, Without;
      ghost var t := tree.View();
      EvolvesItself(t);
      AbsentIsKept(Props(), k);
      if isDict {
        DictGet(dict, k);
        if k !in dict.entries { return; }
        DictRemove(dict, k);
        dict := dict.Remove(k);
        return;
      }
      SlotIsPosition(k);
      var slot := tree.Lookup(shape, k);
      if slot.Some? { RebuildWithout(root, k, slot.value); }
    }

    lemma AbsentIsKept(p: Props, k: Key)
      ensures ValueIn(p, k).None? ==> Without(p, k) == p
    {
    }

    /** `compact_order`. */
    method CompactOrder()
      requires dict.Ok()
      modifies this`dict
      ensures dict.Ok() && dict.Props() == old(dict.Props()) && dict.Bounded()
    {
      hide Dict.Ok, Dict.Props, Live, Wrapped, Renumber;
      if dict.Bounded() { return; }
      var renumber := NewPlaces(dict.order);
      var kept := Retained(dict.order);
      CompactedLaw(dict);
      PlacesInRange(dict);
      ghost var goal := Compacted(dict);
      dict := Dict(kept, map k | k in dict.entries :: dict.entries[k].(pos := renumber[dict.entries[k].pos]));
      assert dict.entries == goal.entries;
    }

    /** Where each entry goes: past the live ones before it. */
    method NewPlaces(order: seq<Option<Key>>) returns (renumber: seq<nat>)
      ensures |renumber| == |order| && forall j: nat | j < |order| :: renumber[j] == Renumber(order, j)
    {
      hide Live, Wrapped;
      renumber := [];
      var next := 0;
      LiveOfNothing(order);
      for i := 0 to |order|
        invariant |renumber| == i && next == |Live(order[..i])|
        invariant forall j: nat | j < i :: renumber[j] == Renumber(order, j)
      {
        renumber := renumber + [next];
        LiveStep(order, i);
        if order[i].Some? { next := next + 1; }
      }
    }

    /** The live entries. */
    method Retained(order: seq<Option<Key>>) returns (kept: seq<Option<Key>>)
      ensures kept == Wrapped(Live(order))
    {
      hide Live;
      kept := [];
      LiveOfNothing(order);
      for i := 0 to |order|
        invariant kept == Wrapped(Live(order[..i]))
      {
        LiveStep(order, i);
        if order[i].Some? { kept := kept + [order[i]]; }
      }
      assert order[..|order|] == order;
    }

    lemma LiveStep(order: seq<Option<Key>>, i: nat)
      requires i < |order|
      ensures Live(order[..i + 1]) == Live(order[..i]) + AsList(order[i])
      ensures Wrapped(Live(order[..i + 1])) == Wrapped(Live(order[..i])) + if order[i].Some? then [order[i]] else []
    {
      hide Live;
      LiveSnoc(order[..i], order[i]);
      assert order[..i + 1] == order[..i] + [order[i]];
    }

    lemma PlacesInRange(d: Dict)
      requires d.Ok()
      ensures forall k | k in d.entries :: d.entries[k].pos < |d.order|
    {
      assert forall k | k in d.entries :: d.KeyAt(k);
    }

    lemma LiveOfNothing(order: seq<Option<Key>>)
      ensures Live(order[..0]) == []
    {
    }

    /** `rebuild_without`, where `r` is the slot of `k`. */
    method RebuildWithout(root: Id, k: Key, ghost r: nat)
      requires Valid() && !isDict && root in tree.nodes && tree.nodes[root].parent.None?
      requires r < slots.len && tree.View().Keys(shape)[r] == k
      modifies this`shape, this`slots, tree
      ensures Valid() && old(tree.View()).Evolves(tree.View())
      ensures Props() == Without(old(Props()), k)
    {
      hide Tree.Valid, Tree.Keys, Tree.Find, Dict.Ok, Dict.Props, Without, Zip;
      ghost var t, was := tree.View(), slots.Values();
      tree.ValidParts();
      LayoutDistinct();
      var keys := tree.View().Keys(shape);
      ZipCut(keys, was, r);
      var kept, values := KeptParts(k, r);
      var x := Regrown(root, kept);
      shape := x;
      SetSlots(values, t);
    }

    /** The other keys with their values, in order. */
    method KeptParts(k: Key, ghost r: nat) returns (kept: seq<Key>, values: seq<Val>)
      requires Valid() && r < slots.len && tree.View().Keys(shape)[r] == k
      modifies tree`probes, tree`indexes
      ensures Valid() && kept == Cut(tree.View().Keys(shape), r) && values == Cut(slots.Values(), r)
    {
      hide Tree.Valid, Tree.Keys, Tree.Find, Dict.Ok, Zip, Cut, CutTo;
      tree.ValidParts();
      LayoutDistinct();
      var keys := tree.View().Keys(shape);
      CutEnds(keys, r);
      CutEnds(slots.Values(), r);
      ghost var vals := slots.Values();
      kept, values := [], [];
      for i := 0 to |keys|
        invariant Valid() && keys == tree.View().Keys(shape)
        invariant kept == CutTo(keys, r, i) && values == CutTo(vals, r, i)
      {
        CutStep(keys, r, i);
        CutStep(vals, r, i);
        if keys[i] != k {
          FindAt(keys[i], i);
          var slot := tree.Lookup(shape, keys[i]);
          kept := kept + [keys[i]];
          values := values + [slots.Get(slot.value).value];
        }
      }
    }

    /** The layout of `kept`, grown from the root. */
    method Regrown(root: Id, kept: seq<Key>) returns (x: Id)
      requires tree.Valid() && root in tree.nodes && tree.nodes[root].parent.None?
      requires Distincts(kept) && |kept| < U32
      modifies tree
      ensures tree.Valid() && old(tree.View()).Evolves(tree.View())
      ensures x in tree.nodes && tree.nodes[x].len == |kept| && tree.View().Keys(x) == kept
    {
      hide Tree.Valid, Tree.Find;
      x := root;
      ghost var t := tree.View();
      EvolvesItself(t);
      tree.ValidParts();
      for i := 0 to |kept|
        invariant tree.Valid() && t.Evolves(tree.View()) && tree.View().Linked() && x in tree.nodes
        invariant tree.View().Keys(x) == kept[..i]
      {
        ghost var t1 := tree.View();
        AbsentKey(x, kept[i]);
        x := tree.Transition(x, kept[i]);
        tree.ValidParts();
        EvolvesTransitive(t, t1, tree.View());
        assert kept[..i + 1] == kept[..i] + [kept[i]];
      }
    }

    lemma AbsentKey(x: Id, k: Key)
      requires tree.Valid() && x in tree.nodes && k !in tree.View().Keys(x)
      ensures tree.View().Find(x, k).None?
      ensures var (t', c) := tree.View().Transition(x, k);
        t'.Linked() && c in t'.nodes && t'.Keys(c) == tree.View().Keys(x) + [k]
    {
      FindIsIndex(tree.View(), x, k);
      AddLaw(tree.View(), x, k);
    }

    /** `set_slots`, for the layout just taken. */
    method SetSlots(values: seq<Val>, ghost t: Tree)
      requires tree.Valid() && shape in tree.nodes && tree.nodes[shape].len == |values| <= MAX_SHAPED_LEN
      requires slots.Ok() && t.Evolves(tree.View()) && dict.Ok() && !isDict
      modifies this`slots, tree`nodes
      ensures Valid() && t.Evolves(tree.View()) && slots.Values() == values
      ensures tree.View().Keys(shape) == old(tree.View().Keys(shape))
    {
      hide Tree.Valid, Tree.Keys, Dict.Ok, NonNumbers, Tree.Evolves;
      NoNonNumbers();
      slots := slots.Cleared();
      ghost var t0 := tree.View();
      EvolvesItself(t0);
      for i := 0 to |values|
        invariant tree.Valid() && t0.Evolves(tree.View()) && t.Evolves(tree.View())
        invariant shape in tree.nodes && tree.nodes[shape].len == |values|
        invariant slots.Ok() && slots.Values() == values[..i]
        invariant NonNumbers(values[..i]) <= tree.nodes[shape].any
      {
        ghost var t1 := tree.View();
        slots := slots.Push(values[i]);
        NoteSlot(i, values[i]);
        LayoutKept(t1, shape);
        EvolvesTransitive(t, t1, tree.View());
        EvolvesTransitive(t0, t1, tree.View());
        assert values[..i + 1] == values[..i] + [values[i]];
        NonNumbersPush(values[..i], values[i]);
      }
      assert values[..|values|] == values;
      LayoutKept(t0, shape);
    }

    lemma NoNonNumbers()
      ensures NonNumbers([]) == {}
    {
    }

    lemma NonNumbersPush(vals: seq<Val>, v: Val)
      ensures NonNumbers(vals + [v]) == NonNumbers(vals) + (if v.Other? && |vals| < TRACKED then {|vals|} else {})
    {
    }

    // ---- Listing

    /** `keys`: the properties' names as inserted. */
    method Keys() returns (keys: seq<Key>)
      requires Valid()
      ensures keys == NamesOf(Props()) && Distincts(keys)
    {
      if isDict {
        DictKeysDistinct(dict);
        keys := NamesInOrder(dict.order);
      } else {
        KeysDistinct(tree.View(), shape);
        keys := tree.Names(shape);
      }
    }

    /** The keys of a dictionary's order, tombstones skipped. */
    method NamesInOrder(order: seq<Option<Key>>) returns (keys: seq<Key>)
      ensures keys == Live(order)
    {
      hide Live;
      keys := [];
      LiveOfNothing(order);
      for i := 0 to |order|
        invariant keys == Live(order[..i])
      {
        LiveStep(order, i);
        if order[i].Some? { keys := keys + [order[i].value]; }
      }
      assert order[..|order|] == order;
    }

    /** `ordered_keys`: the properties' names in the standard's order. */
    method OrderedKeys() returns (keys: seq<Key>)
      requires Valid()
      ensures OwnKeys.StandardOrder(NamesOf(Props()), keys)
      ensures forall other | OwnKeys.StandardOrder(NamesOf(Props()), other) :: other == keys
    {
      var base := Keys();
      keys := OwnKeys.OrderedKeys(base);
      OwnKeys.OrderedKeysAreStandard(base, keys);
      forall other | OwnKeys.StandardOrder(base, other) ensures other == keys {
        OwnKeys.OrderedKeysAreStandard(base, other);
      }
    }
  }
}
