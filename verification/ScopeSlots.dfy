/** Scope frames addressed by name and, through per-site caches, by slot. */
module ScopeSlots {
  import opened Wrappers

  type Name = string
  type FrameId = nat

  datatype Val = Undefined | Tdz | Plain(v: int)

  /** `flags` are the `B_*` kinds; none means a plain mutable binding. */
  datatype Kind = Const | SoftConst | ReadOnly
  datatype Binding = Binding(value: Val, flags: set<Kind>)

  /** A frame; `generation` is `0` while no cache over it is valid. */
  datatype Frame = Frame(names: map<Name, nat>, slots: seq<Binding>, free: seq<nat>,
                         generation: nat, parent: Option<FrameId>)
  {
    ghost predicate NamedAt(n: Name)
      requires n in names
    {
      names[n] < |slots| && names[n] !in free
    }

    /** Each slot holds one binding or is free, and listed once. */
    ghost predicate Ok() {
      && (forall n {:trigger NamedAt(n)} | n in names :: NamedAt(n))
      && (forall m, n | m in names && n in names && names[m] == names[n] :: m == n)
      && (forall i | i in free :: i < |slots|)
      && (forall i, j | 0 <= i < j < |free| :: free[i] != free[j])
    }

    /** What lookup by name sees. */
    function Bindings(): map<Name, Binding>
      requires forall n | n in names :: names[n] < |slots|
    {
      map n | n in names :: slots[names[n]]
    }

    /** `bind`: the frame and the slot. */
    function Bind(n: Name, v: Val): (Frame, nat)
      requires Ok()
    {
      if n in names then
        assert NamedAt(n);
        (this.(slots := slots[names[n] := slots[names[n]].(value := v)]), names[n])
      else if free != [] then
        var i := free[|free| - 1];
        assert i in free;
        (this.(names := names[n := i], slots := slots[i := Binding(v, {})], free := free[..|free| - 1]), i)
      else
        (this.(names := names[n := |slots|], slots := slots + [Binding(v, {})]), |slots|)
    }

    /** `declare` with the flags its `declare_*` forms add. */
    function Declare(n: Name, v: Val, kinds: set<Kind>): Frame
      requires Ok()
    {
      BindLaw(this, n, v);
      var (f, i) := Bind(n, v);
      f.(slots := f.slots[i := f.slots[i].(flags := f.slots[i].flags + kinds)])
    }

    /** `delete_local`. */
    function Delete(n: Name): Frame
      requires Ok()
    {
      if n in names then
        assert NamedAt(n);
        var i := names[n];
        this.(names := names - {n}, slots := slots[i := Binding(Undefined, {})], free := free + [i], generation := 0)
      else this
    }
  }

  ghost predicate Named(f: Frame) {
    forall n | n in f.names :: f.names[n] < |f.slots|
  }

  lemma OkNamed(f: Frame)
    requires f.Ok()
    ensures Named(f)
  {
    forall n | n in f.names ensures f.names[n] < |f.slots| { assert f.NamedAt(n); }
  }

  /** Binding changes the one binding, keeps its flags if it had any, and moves no other name. */
  lemma BindLaw(f: Frame, n: Name, v: Val)
    requires f.Ok()
    ensures var (g, i) := f.Bind(n, v);
      && g.Ok() && Named(f) && Named(g) && g.generation == f.generation && g.parent == f.parent
      && n in g.names && g.names[n] == i
      && g.Bindings() == f.Bindings()[n := if n in f.names then f.Bindings()[n].(value := v) else Binding(v, {})]
      && (forall m | m in f.names :: m in g.names && g.names[m] == f.names[m])
  {
    if n in f.names {
      assert f.NamedAt(n);
      OkNamed(f);
      SetSlotLaw(f, n, f.slots[f.names[n]].(value := v));
    } else {
      BindFresh(f, n, v);
    }
  }

  lemma DeclareLaw(f: Frame, n: Name, v: Val, kinds: set<Kind>)
    requires f.Ok()
    ensures var g := f.Declare(n, v, kinds);
      && g.Ok() && Named(f) && Named(g) && g.generation == f.generation && g.parent == f.parent
      && (forall m | m in f.names :: m in g.names && g.names[m] == f.names[m])
      && g.Bindings() == f.Bindings()[n := Binding(v, (if n in f.names then f.Bindings()[n].flags else {}) + kinds)]
  {
    BindLaw(f, n, v);
    var (h, i) := f.Bind(n, v);
    assert h.slots[i] == h.Bindings()[n];
    var b := h.slots[i].(flags := h.slots[i].flags + kinds);
    SetSlotLaw(h, n, b);
    Overwrite(f.Bindings(), n, h.slots[i], b);
  }

  lemma Overwrite(m: map<Name, Binding>, n: Name, a: Binding, b: Binding)
    ensures m[n := a][n := b] == m[n := b]
  {
  }

  lemma BindFresh(f: Frame, n: Name, v: Val)
    requires f.Ok() && n !in f.names
    ensures var (g, i) := f.Bind(n, v);
      && g.Ok() && Named(f) && Named(g) && g.names == f.names[n := i]
      && g.Bindings() == f.Bindings()[n := Binding(v, {})]
  {
    hide Frame.Ok;
    OkNamed(f);
    FreshSlot(f, n, v);
    FreshOk(f, n, v);
    var (g, i) := f.Bind(n, v);
    OkNamed(g);
    assert g.Bindings() == f.Bindings()[n := Binding(v, {})];
  }

  /** The slot a new name gets is no other name's. */
  lemma FreshSlot(f: Frame, n: Name, v: Val)
    requires f.Ok() && n !in f.names
    ensures var (g, i) := f.Bind(n, v);
      && g.names == f.names[n := i] && i < |g.slots| && g.slots[i] == Binding(v, {})
      && (forall m | m in f.names :: KeepsSlot(f, g, i, m))
  {
    var (g, i) := f.Bind(n, v);
    if f.free != [] { LastFree(f.free); }
    forall m | m in f.names ensures KeepsSlot(f, g, i, m) { assert f.NamedAt(m); }
  }

  /** `m` has its slot still, which is not slot `i`. */
  ghost predicate KeepsSlot(f: Frame, g: Frame, i: nat, m: Name)
    requires m in f.names
  {
    && f.names[m] != i && f.names[m] < |f.slots| && f.names[m] < |g.slots|
    && g.slots[f.names[m]] == f.slots[f.names[m]]
  }

  lemma FreshOk(f: Frame, n: Name, v: Val)
    requires f.Ok() && n !in f.names
    ensures f.Bind(n, v).0.Ok()
  {
    FreshSlot(f, n, v);
    var (g, i) := f.Bind(n, v);
    if f.free != [] { LastFree(f.free); }
    forall m | m in g.names ensures g.NamedAt(m) {
      if m in f.names { assert f.NamedAt(m) && KeepsSlot(f, g, i, m); }
    }
  }

  /** The slot taken from the free list is on it no more. */
  lemma LastFree(free: seq<nat>)
    requires free != [] && forall i, j | 0 <= i < j < |free| :: free[i] != free[j]
    ensures var n := |free| - 1; free[n] in free && free[n] !in free[..n] && forall i | i in free[..n] :: i in free
  {
  }

  /** Deleting takes the one name away, clears its slot, and retires every cache of the frame. */
  lemma DeleteLaw(f: Frame, n: Name)
    requires f.Ok()
    ensures var g := f.Delete(n);
      && g.Ok() && Named(f) && Named(g) && g.parent == f.parent
      && g.Bindings() == f.Bindings() - {n}
      && (n in f.names ==> g.generation == 0 && g.slots[f.names[n]] == Binding(Undefined, {}))
  {
    OkNamed(f);
    var g := f.Delete(n);
    if n in f.names {
      assert f.NamedAt(n);
      forall m | m in g.names ensures g.NamedAt(m) && g.names[m] != f.names[n] { assert f.NamedAt(m); }
    }
    assert g.Ok();
    OkNamed(g);
  }

  // ---- All frames and all caches

  /** A site's cache, for the one name the site asks for. */
  datatype Cache = Cache(name: Name, generation: nat, slot: nat)

  datatype Env = Env(frames: seq<Frame>, caches: seq<Cache>, nextGeneration: nat) {
    ghost predicate FrameOk(s: FrameId)
      requires s < |frames|
    {
      && frames[s].Ok()
      && (frames[s].parent.Some? ==> frames[s].parent.value < s)
      && frames[s].generation < nextGeneration
    }

    /** A cache whose generation is a frame's has the slot that frame gives its name. */
    ghost predicate Agrees(c: Cache, f: Frame) {
      f.generation != 0 && c.generation == f.generation ==> c.name in f.names && f.names[c.name] == c.slot
    }

    ghost predicate CacheOk(i: nat)
      requires i < |caches|
    {
      caches[i].generation < nextGeneration && forall s | 0 <= s < |frames| :: Agrees(caches[i], frames[s])
    }

    ghost predicate Valid() {
      && nextGeneration >= 1
      && (forall s: nat {:trigger FrameOk(s)} | s < |frames| :: FrameOk(s))
      && (forall i: nat {:trigger CacheOk(i)} | i < |caches| :: CacheOk(i))
      && (forall s, r | 0 <= s < r < |frames| ::
        frames[s].generation == frames[r].generation ==> frames[s].generation == 0)
    }

    /** Lookup by name from frame `s` outward. */
    function Lookup(s: FrameId, n: Name): Option<FrameId>
      requires Valid() && s < |frames|
      ensures var o := Lookup(s, n); o.Some? ==> o.value < |frames| && n in frames[o.value].names
      decreases s
    {
      assert FrameOk(s);
      if n in frames[s].names then Some(s)
      else if frames[s].parent.Some? then Lookup(frames[s].parent.value, n)
      else None
    }

    /** A frame as it is, put in the place of frame `s`. */
    function With(s: FrameId, f: Frame): Env
      requires s < |frames|
    {
      this.(frames := frames[s := f])
    }
  }

  /** Replacing a frame by one that keeps its names where they were, or that no cache is valid
      for any more, keeps every cache right. */
  lemma ReplaceFrame(e: Env, s: FrameId, f: Frame)
    requires e.Valid() && s < |e.frames| && f.Ok() && f.parent == e.frames[s].parent
    requires f.generation == 0 || (f.generation == e.frames[s].generation
      && forall m | m in e.frames[s].names :: m in f.names && f.names[m] == e.frames[s].names[m])
    ensures e.With(s, f).Valid()
  {
    hide Frame.Ok;
    var e' := e.With(s, f);
    forall r: nat | r < |e'.frames| ensures e'.FrameOk(r) { assert e.FrameOk(r) && e.FrameOk(s); }
    forall i: nat | i < |e'.caches| ensures e'.CacheOk(i) {
      assert e.CacheOk(i);
      assert e.Agrees(e.caches[i], e.frames[s]);
    }
  }

  class Scopes {
    var frames: seq<Frame>
    var caches: seq<Cache>
    var nextGeneration: nat

    ghost function View(): Env
      reads this
    {
      Env(frames, caches, nextGeneration)
    }

    ghost predicate Valid()
      reads this
    {
      View().Valid()
    }

    /** The bindings of frame `s` by name. */
    ghost function Local(s: FrameId): map<Name, Binding>
      reads this
      requires Valid() && s < |frames|
    {
      assert View().FrameOk(s);
      OkNamed(frames[s]);
      frames[s].Bindings()
    }

    /** Every frame but `s` as it was. */
    twostate predicate OthersSame(s: FrameId)
      reads this
    {
      |frames| == |old(frames)| && forall r | 0 <= r < |frames| && r != s :: frames[r] == old(frames)[r]
    }

    constructor ()
      ensures Valid() && frames == [] && caches == []
    {
      frames, caches, nextGeneration := [], [], 1;
    }

    /** `root` and `child`. */
    method NewFrame(parent: Option<FrameId>) returns (s: FrameId)
      requires Valid() && (parent.Some? ==> parent.value < |frames|)
      modifies this
      ensures Valid() && s == |old(frames)| && |frames| == s + 1 && frames[..s] == old(frames) && Local(s) == map[]
      ensures caches == old(caches) && frames[s].parent == parent
    {
      ghost var e := View();
      s := |frames|;
      frames := frames + [Frame(map[], [], [], 0, parent)];
      forall r: nat | r < |frames| ensures View().FrameOk(r) { if r < s { assert e.FrameOk(r); } }
      forall i: nat | i < |caches| ensures View().CacheOk(i) { assert e.CacheOk(i); }
    }

    /** A site's cache, cold. */
    method NewCache(n: Name) returns (c: nat)
      requires Valid()
      modifies this`caches
      ensures Valid() && c == |old(caches)| && caches == old(caches) + [Cache(n, 0, 0)]
    {
      ghost var e := View();
      c := |caches|;
      caches := caches + [Cache(n, 0, 0)];
      forall r: nat | r < |frames| ensures View().FrameOk(r) { assert e.FrameOk(r); }
      forall i: nat | i < |caches| ensures View().CacheOk(i) {
        if i < c {
          assert e.CacheOk(i);
          forall s | 0 <= s < |frames| ensures View().Agrees(caches[i], frames[s]) {
            assert e.Agrees(e.caches[i], frames[s]);
          }
        }
      }
    }

    /** `declare`, and the `declare_*` forms that also set flags. */
    method Declare(s: FrameId, n: Name, v: Val, kinds: set<Kind>)
      requires Valid() && s < |frames|
      modifies this`frames
      ensures Valid() && OthersSame(s)
      ensures Local(s) == old(Local(s))[n :=
        Binding(v, (if n in old(Local(s)) then old(Local(s))[n].flags else {}) + kinds)]
    {
      ghost var e := View();
      assert e.FrameOk(s);
      DeclareLaw(frames[s], n, v, kinds);
      ReplaceFrame(e, s, frames[s].Declare(n, v, kinds));
      frames := frames[s := frames[s].Declare(n, v, kinds)];
    }

    /** `delete_local`. */
    method DeleteLocal(s: FrameId, n: Name) returns (removed: bool)
      requires Valid() && s < |frames|
      modifies this`frames
      ensures Valid() && OthersSame(s)
      ensures removed == (n in old(Local(s))) && Local(s) == old(Local(s)) - {n}
    {
      ghost var e := View();
      assert e.FrameOk(s);
      DeleteLaw(frames[s], n);
      removed := n in frames[s].names;
      ReplaceFrame(e, s, frames[s].Delete(n));
      frames := frames[s := frames[s].Delete(n)];
    }

    /** `get`: the innermost binding, or none. */
    method Get(s: FrameId, n: Name) returns (v: Option<Val>)
      requires Valid() && s < |frames|
      ensures var o := View().Lookup(s, n);
        v == if o.None? then None else Some(Local(o.value)[n].value)
      decreases s
    {
      assert View().FrameOk(s);
      OkNamed(frames[s]);
      if n in frames[s].names { return Some(frames[s].slots[frames[s].names[n]].value); }
      if frames[s].parent.None? { return None; }
      v := Get(frames[s].parent.value, n);
    }

    /** `set`: writes the innermost binding, if there is one, and nothing else. */
    method Set(s: FrameId, n: Name, v: Val) returns (ok: bool)
      requires Valid() && s < |frames|
      modifies this`frames
      ensures Valid()
      ensures var o := old(View()).Lookup(s, n);
        && ok == o.Some?
        && (o.None? ==> frames == old(frames))
        && (o.Some? ==> OthersSame(o.value))
        && (o.Some? ==>
             Local(o.value) == old(Local(o.value))[n := old(Local(o.value)[n]).(value := v)])
      decreases s
    {
      assert View().FrameOk(s);
      OkNamed(frames[s]);
      if n in frames[s].names {
        WriteSlot(s, n, v);
        return true;
      }
      if frames[s].parent.None? { return false; }
      ok := Set(frames[s].parent.value, n, v);
    }

    method WriteSlot(s: FrameId, n: Name, v: Val)
      requires Valid() && s < |frames| && n in frames[s].names
      modifies this`frames
      ensures Valid() && OthersSame(s)
      ensures Local(s) == old(Local(s))[n := old(Local(s))[n].(value := v)]
    {
      ghost var e := View();
      assert e.FrameOk(s);
      OkNamed(frames[s]);
      var f := frames[s];
      var i := f.names[n];
      SetSlotLaw(f, n, f.slots[i].(value := v));
      ReplaceFrame(e, s, f.(slots := f.slots[i := f.slots[i].(value := v)]));
      frames := frames[s := f.(slots := f.slots[i := f.slots[i].(value := v)])];
    }

    /** `cached_slot`: the slot by-name lookup would find, whatever happened since the cache was
        filled and whichever frame filled it. */
    method CachedSlot(s: FrameId, c: nat) returns (slot: Option<nat>)
      requires Valid() && s < |frames| && c < |caches|
      modifies this
      ensures Valid() && OthersSame(s) && Local(s) == old(Local(s)) && frames[s].names == old(frames)[s].names
      ensures |caches| == |old(caches)| && forall d | 0 <= d < |caches| :: caches[d].name == old(caches)[d].name
      ensures var f := frames[s]; var n := caches[c].name;
        slot == if n in f.names then Some(f.names[n]) else None
    {
      ghost var e := View();
      var f, cache := frames[s], caches[c];
      assert e.FrameOk(s) && e.CacheOk(c) && e.Agrees(cache, f);
      if f.generation != 0 && cache.generation == f.generation { return Some(cache.slot); }
      if cache.name !in f.names { return None; }
      var i := f.names[cache.name];
      if f.generation == 0 {
        frames := frames[s := f.(generation := nextGeneration)];
        nextGeneration := nextGeneration + 1;
        Stamped(e, View(), s);
      }
      ghost var e1 := View();
      caches := caches[c := Cache(cache.name, frames[s].generation, i)];
      Filled(e1, View(), s, c);
      slot := Some(i);
    }

    /** `cached_get_local`: what lookup by name in the frame gives. */
    method CachedGetLocal(s: FrameId, c: nat) returns (v: Option<Val>)
      requires Valid() && s < |frames| && c < |caches|
      modifies this
      ensures Valid() && OthersSame(s) && Local(s) == old(Local(s))
      ensures var n := old(caches)[c].name;
        v == if n in Local(s) then Some(Local(s)[n].value) else None
    {
      var i := CachedSlot(s, c);
      assert View().FrameOk(s);
      OkNamed(frames[s]);
      if i.None? { return None; }
      return Some(frames[s].slots[i.value].value);
    }

    /** `cached_set_plain_local`: writes the frame's binding of the name if it is plain and
        initialized, and nothing otherwise. */
    method CachedSetPlainLocal(s: FrameId, c: nat, v: Val) returns (ok: bool)
      requires Valid() && s < |frames| && c < |caches|
      modifies this
      ensures Valid() && OthersSame(s)
      ensures var n := old(caches)[c].name; var was := old(Local(s));
        && ok == (n in was && was[n].flags == {} && was[n].value != Tdz)
        && Local(s) == if ok then was[n := Binding(v, {})] else was
    {
      var i := CachedSlot(s, c);
      if i.None? { return false; }
      assert View().FrameOk(s);
      OkNamed(frames[s]);
      var b := frames[s].slots[i.value];
      if b.flags != {} || b.value == Tdz { return false; }
      WriteSlot(s, caches[c].name, v);
      ok := true;
    }
  }

  /** Writing the slot of `n` is writing its binding. */
  lemma SetSlotLaw(f: Frame, n: Name, b: Binding)
    requires f.Ok() && Named(f) && n in f.names
    ensures var g := f.(slots := f.slots[f.names[n] := b]);
      g.Ok() && Named(g) && g.Bindings() == f.Bindings()[n := b]
  {
    var g := f.(slots := f.slots[f.names[n] := b]);
    forall m | m in g.names ensures g.NamedAt(m) { assert f.NamedAt(m); }
  }

  lemma Stamped(e: Env, e': Env, s: FrameId)
    requires e.Valid() && s < |e.frames| && e.frames[s].generation == 0
    requires e' == Env(e.frames[s := e.frames[s].(generation := e.nextGeneration)], e.caches, e.nextGeneration + 1)
    ensures e'.Valid()
  {
    forall r: nat | r < |e'.frames| ensures e'.FrameOk(r) {
      assert e.FrameOk(r);
      if r == s { StampedOk(e.frames[s], e.nextGeneration); }
    }
    forall i: nat | i < |e'.caches| ensures e'.CacheOk(i) {
      assert e.CacheOk(i);
      forall r | 0 <= r < |e'.frames| ensures e'.Agrees(e'.caches[i], e'.frames[r]) {
        assert e.Agrees(e.caches[i], e.frames[r]);
      }
    }
    forall r, q | 0 <= r < q < |e'.frames| && e'.frames[r].generation == e'.frames[q].generation
      ensures e'.frames[r].generation == 0
    {
      assert e.FrameOk(r) && e.FrameOk(q);
    }
  }

  lemma StampedOk(f: Frame, g: nat)
    requires f.Ok()
    ensures f.(generation := g).Ok()
  {
    var f' := f.(generation := g);
    forall n | n in f'.names ensures f'.NamedAt(n) { assert f.NamedAt(n); }
  }

  lemma Filled(e: Env, e': Env, s: FrameId, c: nat)
    requires e.Valid() && s < |e.frames| && c < |e.caches| && e.frames[s].generation != 0
    requires e.caches[c].name in e.frames[s].names
    requires e' == e.(caches :=
      e.caches[c := Cache(e.caches[c].name, e.frames[s].generation, e.frames[s].names[e.caches[c].name])])
    ensures e'.Valid()
  {
    forall r: nat | r < |e'.frames| ensures e'.FrameOk(r) { assert e.FrameOk(r); }
    forall i: nat | i < |e'.caches| ensures e'.CacheOk(i) {
      assert e.CacheOk(i) && e.FrameOk(s);
      forall r | 0 <= r < |e'.frames| ensures e'.Agrees(e'.caches[i], e'.frames[r]) {
        assert e.Agrees(e.caches[i], e.frames[r]);
      }
    }
  }
}
