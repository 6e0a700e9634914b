/** The moving collection: kept objects slide to the front of the table under a fresh
    generation, and every reference is rewritten. */
module Compaction {
  import opened Wrappers
  import opened HeapTypes
  import opened HeapState
  import opened HeapInvariants
  import opened Reachability
  import opened CollectionLaws

  predicate KeptAt(slots: seq<Slot>, keep: set<Handle>, i: nat)
    requires i < |slots|
  {
    slots[i].Live() && Handle(i, slots[i].generation) in keep
  }

  /** How many kept objects lie below slot `n`: where the one in slot `n` will go. */
  function Rank(slots: seq<Slot>, keep: set<Handle>, n: nat): (r: nat)
    requires n <= |slots|
    ensures r <= n
  {
    if n == 0 then 0 else Rank(slots, keep, n - 1) + (if KeptAt(slots, keep, n - 1) then 1 else 0)
  }

  lemma {:induction false} RankGrows(slots: seq<Slot>, keep: set<Handle>, i: nat, n: nat)
    requires i < n <= |slots|
    ensures Rank(slots, keep, i) <= Rank(slots, keep, n)
    ensures KeptAt(slots, keep, i) ==> Rank(slots, keep, i) < Rank(slots, keep, n)
  {
    if i < n - 1 { RankGrows(slots, keep, i, n - 1); }
  }

  /** The moved slots and the forwarding pairs, in slot order. */
  datatype Packing = Packing(slots: seq<Slot>, pairs: seq<(Handle, Handle)>)

  function PackTo(slots: seq<Slot>, keep: set<Handle>, gen: nat, n: nat): (p: Packing)
    requires n <= |slots|
    ensures |p.slots| == |p.pairs| == Rank(slots, keep, n)
  {
    if n == 0 then Packing([], [])
    else
      var p := PackTo(slots, keep, gen, n - 1);
      var slot := slots[n - 1];
      if KeptAt(slots, keep, n - 1)
      then Packing(p.slots + [LiveSlot(gen, slot.age, slot.value.value)],
                   p.pairs + [(Handle(n - 1, slot.generation), Handle(|p.slots|, gen))])
      else p
  }

  /** Marks every old slot dirty and lists it. */
  function MarkOld(slots: seq<Slot>, n: nat): (r: (seq<Slot>, seq<nat>))
    requires n <= |slots|
    ensures |r.0| == |slots|
  {
    if n == 0 then (slots, [])
    else
      var (ss, rs) := MarkOld(slots, n - 1);
      if ss[n - 1].age >= OLD_AGE then (ss[n - 1 := ss[n - 1].(dirty := Dirty)], rs + [n - 1]) else (ss, rs)
  }

  /** `compact_to`. */
  function CompactTo(s: State, keep: set<Handle>): State {
    var p := PackTo(s.slots, keep, s.compactGen, |s.slots|);
    var (ss, rs) := MarkOld(p.slots, |p.slots|);
    State(ss, [], 0, 0, rs, |p.slots|, s.allocs, s.allocs, NextCompactGen(s.compactGen))
  }

  /** Where the forwarding sends a handle. */
  function Forward(s: State, keep: set<Handle>, h: Handle): Handle {
    if s.IsLive(h) && h in keep then Handle(Rank(s.slots, keep, h.index), s.compactGen) else h
  }

  function ForwardRef(s: State, keep: set<Handle>, r: Ref): Ref {
    match r case Prim(_) => r case Ref(h) => Ref(Forward(s, keep, h))
  }

  /** Every outgoing handle rewritten. (The `scan` edges are stored by id; the tables
      that resolve them are forwarded by the caller's fix-up.) */
  function Relocated(s: State, keep: set<Handle>, v: Value): Value {
    v.(words := seq(|v.words|, i requires 0 <= i < |v.words| => ForwardRef(s, keep, v.words[i])),
       extra := seq(|v.extra|, i requires 0 <= i < |v.extra| => Forward(s, keep, v.extra[i])))
  }

  /** The pointer-relocation pass over the first `n` slots of `t`. */
  function RelocateTo(s: State, keep: set<Handle>, t: State, n: nat): (r: State)
    requires n <= |t.slots|
    ensures |r.slots| == |t.slots|
  {
    if n == 0 then t
    else
      var r := RelocateTo(s, keep, t, n - 1);
      if r.slots[n - 1].Live()
      then r.Store(r.HandleAt(n - 1), Relocated(s, keep, r.slots[n - 1].value.value))
      else r
  }

  /** A whole compaction keeping `keep`. */
  function Compact(s: State, keep: set<Handle>): State {
    var t := CompactTo(s, keep);
    RelocateTo(s, keep, t, |t.slots|)
  }

  // ---- Layout

  /** The object of slot `i` lands at its rank; every new slot is some kept object's. */
  lemma PackToPlaces(slots: seq<Slot>, keep: set<Handle>, gen: nat, n: nat)
    requires n <= |slots|
    ensures var p := PackTo(slots, keep, gen, n);
      && (forall i | 0 <= i < n && KeptAt(slots, keep, i) ::
            var r := Rank(slots, keep, i);
            && r < |p.slots| && p.slots[r] == LiveSlot(gen, slots[i].age, slots[i].value.value)
            && p.pairs[r] == (Handle(i, slots[i].generation), Handle(r, gen)))
      && (forall j | 0 <= j < |p.pairs| ::
            var i := p.pairs[j].0.index;
            && i < n && KeptAt(slots, keep, i) && Rank(slots, keep, i) == j
            && p.pairs[j] == (Handle(i, slots[i].generation), Handle(j, gen))
            && p.slots[j] == LiveSlot(gen, slots[i].age, slots[i].value.value))
  {
    PackLands(slots, keep, gen, n);
    PackComes(slots, keep, gen, n);
  }

  lemma {:induction false} PackLands(slots: seq<Slot>, keep: set<Handle>, gen: nat, n: nat)
    requires n <= |slots|
    ensures var p := PackTo(slots, keep, gen, n);
      forall i | 0 <= i < n && KeptAt(slots, keep, i) ::
        var r := Rank(slots, keep, i);
        && r < |p.slots| && p.slots[r] == LiveSlot(gen, slots[i].age, slots[i].value.value)
        && p.pairs[r] == (Handle(i, slots[i].generation), Handle(r, gen))
  {
    if n > 0 { PackLands(slots, keep, gen, n - 1); }
  }

  lemma {:induction false} PackComes(slots: seq<Slot>, keep: set<Handle>, gen: nat, n: nat)
    requires n <= |slots|
    ensures var p := PackTo(slots, keep, gen, n);
      forall j | 0 <= j < |p.pairs| ::
        var i := p.pairs[j].0.index;
        && i < n && KeptAt(slots, keep, i) && Rank(slots, keep, i) == j
        && p.pairs[j] == (Handle(i, slots[i].generation), Handle(j, gen))
        && p.slots[j] == LiveSlot(gen, slots[i].age, slots[i].value.value)
  {
    if n > 0 {
      PackComes(slots, keep, gen, n - 1);
      var p, q := PackTo(slots, keep, gen, n), PackTo(slots, keep, gen, n - 1);
      assert forall j | 0 <= j < |q.pairs| :: p.pairs[j] == q.pairs[j] && p.slots[j] == q.slots[j];
    }
  }

  lemma {:induction false} MarkOldOutcome(slots: seq<Slot>, n: nat)
    requires n <= |slots|
    ensures var (ss, rs) := MarkOld(slots, n);
      && (forall i | 0 <= i < |slots| ::
            ss[i] == if i < n && slots[i].age >= OLD_AGE then slots[i].(dirty := Dirty) else slots[i])
      && NoDup(rs) && (forall i :: i in rs <==> 0 <= i < n && slots[i].age >= OLD_AGE)
  {
    if n > 0 { MarkOldOutcome(slots, n - 1); }
  }

  /** The slot of the moved object that used to be in slot `i`. */
  function MovedSlot(s: State, keep: set<Handle>, i: nat): Slot
    requires i < |s.slots| && s.slots[i].Live()
  {
    var slot := s.slots[i];
    LiveSlot(s.compactGen, slot.age, Relocated(s, keep, slot.value.value))
      .(dirty := if slot.age >= OLD_AGE then Dirty else Clean)
  }

  /** After `compact_to` every old object is already due, so the relocation's own borrows
      record nothing more and it rewrites values only. */
  lemma {:induction false} RelocateToOutcome(s: State, keep: set<Handle>, t: State, n: nat)
    requires n <= |t.slots| && forall i | 0 <= i < |t.slots| :: t.slots[i].Old() ==> t.slots[i].dirty.Dirty?
    ensures var r := RelocateTo(s, keep, t, n);
      && r == t.(slots := r.slots)
      && (forall i | 0 <= i < |t.slots| ::
            r.slots[i] == if i < n && t.slots[i].Live()
                          then t.slots[i].(value := Some(Relocated(s, keep, t.slots[i].value.value)))
                          else t.slots[i])
  {
    if n > 0 {
      RelocateToOutcome(s, keep, t, n - 1);
    }
  }

  /** The old slot of the object compaction puts in new slot `j`. */
  ghost function Origin(s: State, keep: set<Handle>, j: nat): (i: nat)
    requires j < Rank(s.slots, keep, |s.slots|)
    ensures i < |s.slots| && KeptAt(s.slots, keep, i) && Rank(s.slots, keep, i) == j
  {
    PairAt(s.slots, keep, s.compactGen, |s.slots|, j);
    PackTo(s.slots, keep, s.compactGen, |s.slots|).pairs[j].0.index
  }

  lemma PairAt(slots: seq<Slot>, keep: set<Handle>, gen: nat, n: nat, j: nat)
    requires n <= |slots| && j < Rank(slots, keep, n)
    ensures var p := PackTo(slots, keep, gen, n); var i := p.pairs[j].0.index;
      && i < n && KeptAt(slots, keep, i) && Rank(slots, keep, i) == j
      && p.slots[j] == LiveSlot(gen, slots[i].age, slots[i].value.value)
  {
    PackToPlaces(slots, keep, gen, n);
    assert PackTo(slots, keep, gen, n).pairs[j].0.index < n;
  }

  lemma OriginOfRank(s: State, keep: set<Handle>, i: nat)
    requires i < |s.slots| && KeptAt(s.slots, keep, i)
    ensures Rank(s.slots, keep, i) < Rank(s.slots, keep, |s.slots|) && Origin(s, keep, Rank(s.slots, keep, i)) == i
  {
    RankGrows(s.slots, keep, i, |s.slots|);
    PackToPlaces(s.slots, keep, s.compactGen, |s.slots|);
  }

  /** The whole compaction, slot by slot: dense, in order, ages kept. */
  lemma CompactLayout(s: State, keep: set<Handle>)
    ensures var t := Compact(s, keep);
      && |t.slots| == Rank(s.slots, keep, |s.slots|)
      && (forall j | 0 <= j < |t.slots| :: t.slots[j] == MovedSlot(s, keep, Origin(s, keep, j)))
      && NoDup(t.remembered) && (forall j :: j in t.remembered <==> 0 <= j < |t.slots| && t.slots[j].age >= OLD_AGE)
      && t == State(t.slots, [], 0, 0, t.remembered, |t.slots|, s.allocs, s.allocs, NextCompactGen(s.compactGen))
  {
    var p := PackTo(s.slots, keep, s.compactGen, |s.slots|);
    PackToPlaces(s.slots, keep, s.compactGen, |s.slots|);
    MarkOldOutcome(p.slots, |p.slots|);
    var t := CompactTo(s, keep);
    RelocateToOutcome(s, keep, t, |t.slots|);
  }

  // ---- The moved graph

  lemma {:induction false} AllLive(slots: seq<Slot>)
    requires forall i | 0 <= i < |slots| :: slots[i].Live()
    ensures LiveCount(slots) == |slots|
  {
    if slots != [] { AllLive(slots[..|slots| - 1]); }
  }

  /** What a kept handle becomes: live, with its value relocated and its age kept. */
  lemma MovedHandle(s: State, keep: set<Handle>, h: Handle)
    requires s.IsLive(h) && h in keep
    ensures var (t, f) := (Compact(s, keep), Forward(s, keep, h));
      && t.IsLive(f) && t.At(f) == Relocated(s, keep, s.At(h)) && t.slots[f.index].age == s.slots[h.index].age
      && f.generation == s.compactGen && Origin(s, keep, f.index) == h.index
  {
    assert h == s.HandleAt(h.index);
    CompactLayout(s, keep);
    OriginOfRank(s, keep, h.index);
  }

  /** Every object of the compacted heap is some kept object, moved. */
  lemma MovedFrom(s: State, keep: set<Handle>, g: Handle) returns (h: Handle)
    requires Compact(s, keep).IsLive(g)
    ensures s.IsLive(h) && h in keep && Forward(s, keep, h) == g
  {
    CompactLayout(s, keep);
    h := s.HandleAt(Origin(s, keep, g.index));
  }

  /** The forwarding is injective and order-preserving on kept handles. */
  lemma ForwardKeepsOrder(s: State, keep: set<Handle>, h: Handle, g: Handle)
    requires s.IsLive(h) && h in keep && s.IsLive(g) && g in keep
    ensures h.index < g.index ==> Forward(s, keep, h).index < Forward(s, keep, g).index
    ensures Forward(s, keep, h) == Forward(s, keep, g) ==> h == g
  {
    assert h == s.HandleAt(h.index) && g == s.HandleAt(g.index);
    if h.index < g.index { RankGrows(s.slots, keep, h.index, g.index); }
    if g.index < h.index { RankGrows(s.slots, keep, g.index, h.index); }
  }

  /** Forwarding twice is forwarding once, on every handle whatever: the generation a
      compaction stamps is never one a live object already carries, however many
      compactions have gone by. */
  lemma ForwardIdempotent(s: State, keep: set<Handle>, h: Handle)
    requires s.GenerationsOk()
    ensures Forward(s, keep, Forward(s, keep, h)) == Forward(s, keep, h)
  {
    var f := Forward(s, keep, h);
    assert f != h ==> f.generation == s.compactGen;
    assert forall i | 0 <= i < |s.slots| && s.slots[i].Live() :: s.slots[i].generation != s.compactGen;
  }

  /** Edges of a moved object are the forwarded edges of the original, in order. */
  lemma MovedEdges(s: State, keep: set<Handle>, v: Value, e: Handle)
    ensures e in Relocated(s, keep, v).Edges() <==> exists e0 :: e0 in v.Edges() && Forward(s, keep, e0) == e
    ensures e in Relocated(s, keep, v).Trace() <==> exists e0 :: e0 in v.Trace() && Forward(s, keep, e0) == e
  {
    var w := Relocated(s, keep, v);
    if e in w.Trace() {
      var i :| 0 <= i < |w.words| && w.words[i] == Ref(e);
      assert v.words[i].Ref? && v.words[i].h in v.Trace() && Forward(s, keep, v.words[i].h) == e;
    }
    if e in w.extra {
      var i :| 0 <= i < |w.extra| && w.extra[i] == e;
      assert v.extra[i] in v.extra;
    }
    forall e0 | e0 in v.Trace() && Forward(s, keep, e0) == e ensures e in w.Trace() {
      var i :| 0 <= i < |v.words| && v.words[i] == Ref(e0);
      assert w.words[i] == Ref(e);
    }
    forall e0 | e0 in v.extra && Forward(s, keep, e0) == e ensures e in w.extra {
      var i :| 0 <= i < |v.extra| && v.extra[i] == e0;
      assert w.extra[i] == e;
    }
  }

  /** No kept object has an edge out of `keep`. */
  ghost predicate Sealed(s: State, keep: set<Handle>) {
    forall h | h in keep && s.IsLive(h) :: SealedAt(s, keep, h)
  }

  ghost predicate SealedAt(s: State, keep: set<Handle>, h: Handle)
    requires s.IsLive(h)
  {
    forall e | e in s.At(h).Edges() :: e in keep && s.IsLive(e)
  }

  /** The compacted heap meets every invariant again, whatever was kept, as far as the
      table goes; its edges are sound if no kept object dangles. */
  lemma CompactInv(s: State, keep: set<Handle>)
    requires s.Inv() && Sealed(s, keep)
    ensures Compact(s, keep).Inv() && Compact(s, keep).NoDangling()
  {
    var t := Compact(s, keep);
    CompactBook(s, keep);
    forall j | 0 <= j < |t.slots| && t.slots[j].Live()
      ensures t.BarrierAt(j) && t.EdgesIssued(t.slots[j].value.value) && t.EdgesLive(t.slots[j].value.value)
    {
      CompactLayout(s, keep);
      var i := Origin(s, keep, j);
      var h := s.HandleAt(i);
      assert SealedAt(s, keep, h);
      forall e | e in t.slots[j].value.value.Edges() ensures t.IsLive(e) && t.Issued(e) {
        MovedEdges(s, keep, s.At(h), e);
        var e0 :| e0 in s.At(h).Edges() && Forward(s, keep, e0) == e;
        MovedHandle(s, keep, e0);
      }
    }
    assert t.BarrierOk() && t.NoForged() && t.NoDangling();
  }

  /** The table after any compaction, any number of them: exact, all tracked, and every
      old object due for the next minor collection. */
  lemma CompactBook(s: State, keep: set<Handle>)
    requires s.TableOk() && COMPACT_GEN_BASE <= s.compactGen < GEN_MOD
    ensures var t := Compact(s, keep);
      && t.BookOk() && t.CountOk() && t.BarrierOk() && t.GenerationsOk()
  {
    var t := Compact(s, keep);
    CompactLayout(s, keep);
    assert forall j | 0 <= j < |t.slots| :: t.slots[j].Live();
    AllLive(t.slots);
    forall j | 0 <= j < |t.slots| ensures t.slots[j].age <= MAX_AGE && t.slots[j].generation == s.compactGen {
      assert t.slots[j] == MovedSlot(s, keep, Origin(s, keep, j));
    }
    assert Rank(s.slots, keep, |s.slots|) <= |s.slots|;
    CompactRemembered(s, keep);
    assert t.TableOk() by { assert t.free == []; }
  }

  lemma CompactRemembered(s: State, keep: set<Handle>)
    ensures Compact(s, keep).RememberedOk()
  {
    var t := Compact(s, keep);
    CompactLayout(s, keep);
    assert forall j | 0 <= j < |t.remembered| :: t.remembered[j] in t.remembered;
  }

  // ---- Reachability moves along

  function ForwardEach(s: State, keep: set<Handle>, hs: seq<Handle>): (r: seq<Handle>)
    ensures |r| == |hs| && forall i | 0 <= i < |hs| :: r[i] == Forward(s, keep, hs[i])
  {
    seq(|hs|, i requires 0 <= i < |hs| => Forward(s, keep, hs[i]))
  }

  /** A kept path forwards to a path. */
  lemma PathMoves(s: State, keep: set<Handle>, path: seq<Handle>)
    requires IsPath(s, false, path) && forall j | 0 <= j < |path| :: path[j] in keep
    ensures IsPath(Compact(s, keep), false, ForwardEach(s, keep, path))
  {
    var t, q := Compact(s, keep), ForwardEach(s, keep, path);
    forall j | 0 <= j < |path| ensures t.IsLive(q[j]) && t.At(q[j]) == Relocated(s, keep, s.At(path[j])) {
      MovedHandle(s, keep, path[j]);
    }
    forall j | 0 < j < |path| ensures q[j] in EdgesOf(t.At(q[j - 1]), false) {
      assert path[j] in s.At(path[j - 1]).Trace();
      MovedEdges(s, keep, s.At(path[j - 1]), q[j]);
    }
  }

  /** A compaction from `roots` yields an isomorphic graph: each handle reachable before is
      forwarded to one reachable from the rewritten roots, with its value relocated and
      its age kept; and every object of the new table arises that way. */
  lemma CompactIsIsomorphic(s: State, roots: seq<Handle>)
    ensures var k := Kept(s, FullPlan(roots, [], false)); var t := Compact(s, k);
      && (forall h | Reachable(s, RootSet(roots), false, h) ::
            && MovedTo(s, t, k, h)
            && Reachable(t, RootSet(ForwardEach(s, k, roots)), false, Forward(s, k, h)))
      && (forall g | t.IsLive(g) :: exists h | Reachable(s, RootSet(roots), false, h) :: Forward(s, k, h) == g)
  {
    var p := FullPlan(roots, [], false);
    var k := Kept(s, p);
    var t := Compact(s, k);
    var roots' := ForwardEach(s, k, roots);
    forall h | Reachable(s, RootSet(roots), false, h)
      ensures MovedTo(s, t, k, h) && Reachable(t, RootSet(roots'), false, Forward(s, k, h))
    {
      var path :| IsPath(s, false, path) && path[0] in RootSet(roots) && path[|path| - 1] == h;
      forall j | 0 <= j < |path| ensures path[j] in k { PathStays(s, p, path, k, j); }
      PathMoves(s, k, path);
      MovedHandle(s, k, h);
      var q := ForwardEach(s, k, path);
      var i :| 0 <= i < |roots| && roots[i] == path[0];
      assert roots'[i] == q[0] && roots'[i] in roots';
    }
    forall g | t.IsLive(g) ensures exists h | Reachable(s, RootSet(roots), false, h) :: Forward(s, k, h) == g {
      var h := MovedFrom(s, k, g);
      KeptIsReachable(s, p, h);
    }
  }

  /** `h` was moved: its image is live and holds the relocated value at the same age. */
  ghost predicate MovedTo(s: State, t: State, k: set<Handle>, h: Handle) {
    && s.IsLive(h) && t.IsLive(Forward(s, k, h))
    && t.At(Forward(s, k, h)) == Relocated(s, k, s.At(h))
    && t.slots[Forward(s, k, h).index].age == s.slots[h.index].age
  }

  // ---- The limit: a dangling edge

  const DANGLER := Value(Plain, [Ref(Handle(1, 0))], [])

  /** An old object whose one edge leads to a slot since freed. */
  const DANGLING := State([Slot(Some(DANGLER), 0, 1, Clean, 0, 0), Slot(None, 1, 0, Clean, 0, 0)],
                          [1], 1, 2, [], 1, 0, 0, COMPACT_GEN_BASE)

  /** Handles are unique only without compaction: the table shrinks and grows again at
      generation 0, so a kept object's stale edge can come to name a brand-new object. */
  lemma StaleEdgeCanAlias()
    ensures DANGLING.Inv() && !DANGLING.IsLive(Handle(1, 0)) && DANGLING.Issued(Handle(1, 0))
    ensures var t := Compact(DANGLING, {Handle(0, 0)});
      && t.TableOk()
      && t.Alloc(Value(Plain, [], [])).1 == Some(Handle(1, 0))
      && t.IsLive(Handle(0, COMPACT_GEN_BASE))
      && Handle(1, 0) in t.At(Handle(0, COMPACT_GEN_BASE)).Edges()
  {
    var s, k := DANGLING, {Handle(0, 0)};
    StaleIsInv();
    assert Rank(s.slots, k, 1) == 1 && Rank(s.slots, k, 2) == 1;
    CompactBook(s, k);
    CompactLayout(s, k);
    MovedHandle(s, k, Handle(0, 0));
    MovedEdges(s, k, DANGLER, Handle(1, 0));
  }

  lemma StaleCount()
    ensures LiveCount(DANGLING.slots) == 1
  {
    var slots := DANGLING.slots;
    var first := slots[..1];
    assert |slots| == 2 && first[..0] == [] && first[0] == slots[0];
    assert LiveCount(first[..0]) == 0;
    assert LiveCount(first) == 1 && !slots[1].Live();
  }

  lemma StaleIsInv()
    ensures DANGLING.Inv()
  {
    var s := DANGLING;
    assert s.free[..1] == [1];
    StaleCount();
    assert s.Len() == 1 && s.counted <= s.allocs;
    forall e | e in DANGLER.Edges() ensures e == Handle(1, 0) { assert Ref(e) in DANGLER.words; }
    assert s.EdgesIssued(DANGLER);
    assert s.BarrierAt(0);
    assert s.TableOk() && s.YoungTracked() && s.RememberedOk();
  }
}
