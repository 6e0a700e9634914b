/** The step-bounded tri-colour marker, interleaved with a mutator that allocates,
    frees, and stores through the shading barrier. */
module Incremental {
  import opened HeapTypes
  import opened HeapState
  import opened HeapInvariants
  import opened HeapTable
  import opened Reachability

  /** White is unmarked, grey is on the worklist, black is marked and scanned. */
  datatype Colours = Colours(marked: set<Handle>, grey: seq<Handle>)

  /** `mark_grey`. */
  function Shade(c: Colours, h: Handle): Colours {
    if h in c.marked then c else Colours(c.marked + {h}, c.grey + [h])
  }

  function ShadeEach(c: Colours, hs: seq<Handle>): Colours {
    if hs == [] then c else Shade(ShadeEach(c, hs[..|hs| - 1]), hs[|hs| - 1])
  }

  /** Scans the top of the worklist, greying its live children. */
  function ScanTop(s: State, c: Colours): Colours
    requires c.grey != []
  {
    var h := c.grey[|c.grey| - 1];
    ShadeEach(c.(grey := c.grey[..|c.grey| - 1]), LiveChildren(s, h))
  }

  function LiveChildren(s: State, h: Handle): (cs: seq<Handle>)
    ensures forall e :: e in cs <==> s.IsLive(h) && e in s.At(h).Trace() && s.IsLive(e)
  {
    if s.IsLive(h) then OnlyLive(s, s.At(h).Trace()) else []
  }

  function OnlyLive(s: State, hs: seq<Handle>): (r: seq<Handle>)
    ensures forall e :: e in r <==> e in hs && s.IsLive(e)
  {
    if hs == [] then []
    else OnlyLive(s, hs[..|hs| - 1]) + (if s.IsLive(hs[|hs| - 1]) then [hs[|hs| - 1]] else [])
  }

  /** One bounded step. */
  function StepBy(s: State, c: Colours, budget: nat): Colours
    decreases budget
  {
    if budget == 0 || c.grey == [] then c else StepBy(s, ScanTop(s, c), budget - 1)
  }

  lemma ShadeEachNext(c: Colours, hs: seq<Handle>, h: Handle)
    ensures ShadeEach(c, hs + [h]) == Shade(ShadeEach(c, hs), h)
  {
    assert (hs + [h])[..|hs|] == hs;
  }

  lemma ShadeNone(c: Colours)
    ensures ShadeEach(c, []) == c
  {
  }

  lemma OnlyLiveNext(s: State, hs: seq<Handle>, i: nat)
    requires i < |hs|
    ensures OnlyLive(s, hs[..i + 1]) == if s.IsLive(hs[i]) then OnlyLive(s, hs[..i]) + [hs[i]] else OnlyLive(s, hs[..i])
  {
    assert hs[..i + 1][..i] == hs[..i];
  }

  class IncrementalMarker {
    var marked: set<Handle>
    var grey: seq<Handle>

    function View(): Colours
      reads this
    {
      Colours(marked, grey)
    }

    constructor (roots: seq<Handle>)
      ensures View() == ShadeEach(Colours({}, []), roots)
    {
      marked, grey := {}, [];
      new;
      ShadeAll(roots);
    }

    method MarkGrey(h: Handle)
      modifies this
      ensures View() == Shade(old(View()), h)
    {
      if h !in marked {
        marked := marked + {h};
        grey := grey + [h];
      }
    }

    method ShadeAll(hs: seq<Handle>)
      modifies this
      ensures View() == ShadeEach(old(View()), hs)
    {
      ghost var c := View();
      for i := 0 to |hs|
        invariant View() == ShadeEach(c, hs[..i])
      {
        assert hs[..i + 1] == hs[..i] + [hs[i]];
        ShadeEachNext(c, hs[..i], hs[i]);
        MarkGrey(hs[i]);
      }
      assert hs[..|hs|] == hs;
    }

    /** Scans up to `budget` grey objects; true once none is left. */
    method Step(heap: Heap, budget: nat) returns (done: bool)
      modifies this
      ensures View() == StepBy(heap.View(), old(View()), budget)
      ensures done <==> grey == []
    {
      hide StepBy, ScanTop;
      ghost var s, c := heap.View(), View();
      for i := 0 to budget
        invariant StepBy(s, View(), budget - i) == StepBy(s, c, budget)
      {
        StepOnce(s, View(), budget - i);
        if grey == [] { return true; }
        ScanNext(heap);
      }
      StepOnce(s, View(), 0);
      done := grey == [];
    }

    lemma StepOnce(s: State, c: Colours, budget: nat)
      ensures StepBy(s, c, budget) == if budget == 0 || c.grey == [] then c else StepBy(s, ScanTop(s, c), budget - 1)
    {
    }

    method ScanNext(heap: Heap)
      requires grey != []
      modifies this
      ensures View() == ScanTop(heap.View(), old(View()))
    {
      hide ShadeEach, OnlyLive;
      var h := grey[|grey| - 1];
      grey := grey[..|grey| - 1];
      var obj := heap.Get(h);
      if obj.Some? {
        ScanEdges(heap, obj.value.Trace());
      } else {
        assert LiveChildren(heap.View(), h) == [];
        ShadeNone(View());
      }
    }

    method ScanEdges(heap: Heap, edges: seq<Handle>)
      modifies this
      ensures View() == ShadeEach(old(View()), OnlyLive(heap.View(), edges))
    {
      ghost var s, c := heap.View(), View();
      for i := 0 to |edges|
        invariant View() == ShadeEach(c, OnlyLive(s, edges[..i]))
      {
        OnlyLiveNext(s, edges, i);
        if heap.IsLive(edges[i]) {
          ShadeEachNext(c, OnlyLive(s, edges[..i]), edges[i]);
          MarkGrey(edges[i]);
        }
      }
      assert edges[..|edges|] == edges;
    }

    /** Frees every live object marking did not reach. */
    method Sweep(heap: Heap) returns (swept: nat)
      requires heap.View().Inv()
      modifies heap
      ensures heap.View().Inv() && IssuedGrows(old(heap.View()), heap.View())
      ensures forall h :: heap.View().IsLive(h) <==> old(heap.View()).IsLive(h) && h in marked
      ensures forall h | heap.View().IsLive(h) :: heap.View().At(h) == old(heap.View()).At(h)
      ensures heap.View().Len() == old(heap.View()).Len() - swept
    {
      hide State.Free, State.GraphOk, State.YoungTracked, State.RememberedOk, LiveCount;
      ghost var s := heap.View();
      swept := 0;
      var hs := heap.LiveHandles();
      for i := 0 to |hs|
        invariant heap.View().Inv() && IssuedGrows(s, heap.View())
        invariant forall h :: heap.View().IsLive(h) <==> s.IsLive(h) && (h in marked || h !in hs[..i])
        invariant forall h | heap.View().IsLive(h) :: heap.View().At(h) == s.At(h)
        invariant heap.View().Len() == s.Len() - swept
      {
        ghost var t := heap.View();
        assert hs[..i + 1] == hs[..i] + [hs[i]];
        assert hs[i] !in hs[..i] && s.IsLive(hs[i]);
        if hs[i] !in marked {
          FreeInv(t, hs[i]);
          var freed := heap.Free(hs[i]);
          swept := swept + 1;
          assert forall h: Handle | h.index == hs[i].index && s.IsLive(h) :: h == hs[i];
          SlotIsVacant(t, hs[i]);
        }
      }
      assert hs[..|hs|] == hs;
    }

    lemma SlotIsVacant(s: State, h: Handle)
      requires s.CountOk() && s.freeTop <= |s.free| && s.IsLive(h)
      ensures forall g: Handle | g.index == h.index :: !s.Free(h).IsLive(g)
    {
    }
  }

  // ---- The tri-colour invariant

  ghost predicate ChildrenMarked(s: State, h: Handle, marked: set<Handle>)
    requires s.IsLive(h)
  {
    forall e | e in s.At(h).Trace() && s.IsLive(e) :: e in marked
  }

  /** No black object points to a live white one. */
  ghost predicate TriColour(s: State, c: Colours) {
    && (forall h | h in c.grey :: h in c.marked)
    && (forall h | h in c.marked :: s.Issued(h))
    && (forall h | h in c.marked && h !in c.grey && s.IsLive(h) :: ChildrenMarked(s, h, c.marked))
  }

  /** What the mutator and the marker may do to each other. A store shades the
      references it adds; `Root` shades a handle the program takes as a new root. */
  datatype Action = Mark(budget: nat) | New(v: Value) | Write(h: Handle, v: Value)
                  | WriteFrom(h: Handle, at: nat, v: Value) | Exchange(a: Handle, b: Handle)
                  | Drop(h: Handle) | Root(h: Handle)

  /** The references `v` has that `w` had not. */
  function Added(w: Value, v: Value): (r: seq<Handle>)
    ensures forall e :: e in r <==> e in v.Trace() && e !in w.Trace()
  {
    Filter(v.Trace(), w.Trace())
  }

  function Filter(hs: seq<Handle>, out: seq<Handle>): (r: seq<Handle>)
    ensures forall e :: e in r <==> e in hs && e !in out
  {
    if hs == [] then [] else (if hs[0] in out then [] else [hs[0]]) + Filter(hs[1..], out)
  }

  /** The program only stores handles that were handed out to it. */
  ghost predicate Allowed(s: State, a: Action) {
    match a
    case New(v) => s.EdgesIssued(v)
    case Write(h, v) => s.EdgesIssued(v)
    case WriteFrom(h, at, v) => s.EdgesIssued(v) && (s.IsLive(h) ==> UnchangedBefore(s.At(h), v, at))
    case Root(h) => s.Issued(h)
    case _ => true
  }

  function Next(s: State, c: Colours, a: Action): (State, Colours)
    requires s.TableOk() && s.CountOk()
  {
    match a
    case Mark(budget) => (s, StepBy(s, c, budget))
    case New(v) => var (t, r) := s.Alloc(v); if r.Some? then (t, c) else (s, c)
    case Write(h, v) => if s.IsLive(h) then (s.Store(h, v), ShadeEach(c, Added(s.At(h), v))) else (s, c)
    case WriteFrom(h, at, v) => if s.IsLive(h) then (s.Append(h, at, v), ShadeEach(c, Added(s.At(h), v))) else (s, c)
    case Exchange(a, b) =>
      if s.IsLive(a) && s.IsLive(b)
      then (s.Swap(a, b), ShadeEach(ShadeEach(c, Added(s.At(a), s.At(b))), Added(s.At(b), s.At(a))))
      else (s, c)
    case Drop(h) => (s.Free(h), c)
    case Root(h) => (s, Shade(c, h))
  }

  // ---- The marker's own steps

  lemma {:induction false} ShadeEachKeeps(s: State, c: Colours, hs: seq<Handle>)
    requires TriColour(s, c) && forall e | e in hs :: s.Issued(e)
    ensures var d := ShadeEach(c, hs); TriColour(s, d) && c.marked <= d.marked && (forall e | e in hs :: e in d.marked)
  {
    if hs != [] {
      var n := |hs| - 1;
      ShadeEachKeeps(s, c, hs[..n]);
      var (m, d) := (ShadeEach(c, hs[..n]), ShadeEach(c, hs));
      assert hs == hs[..n] + [hs[n]];
      forall h | h in d.marked && h !in d.grey && s.IsLive(h) ensures ChildrenMarked(s, h, d.marked) {
        assert h in m.marked;
        assert ChildrenMarked(s, h, m.marked);
      }
    }
  }

  /** Every handle pushed by the shading of `hs` was white before, so scanning the top
      never forgets a grey object. */
  lemma {:induction false} ShadeEachGrey(c: Colours, hs: seq<Handle>)
    ensures var d := ShadeEach(c, hs);
      && (forall g :: g in d.grey ==> g in c.grey || g in hs)
      && (forall g | g in d.marked :: g in c.marked || (g in hs && g in d.grey))
      && (forall g | g in c.grey :: g in d.grey)
  {
    if hs != [] {
      ShadeEachGrey(c, hs[..|hs| - 1]);
      assert hs == hs[..|hs| - 1] + [hs[|hs| - 1]];
    }
  }

  lemma ScanTopKeeps(s: State, c: Colours)
    requires TriColour(s, c) && c.grey != []
    ensures TriColour(s, ScanTop(s, c)) && c.marked <= ScanTop(s, c).marked
  {
    var n := |c.grey| - 1;
    var h, rest := c.grey[n], c.grey[..n];
    assert c.grey == rest + [h];
    var m := c.(grey := rest);
    var cs := LiveChildren(s, h);
    var d := ShadeEach(m, cs);
    ShadeEachGrey(m, cs);
    ShadeEachMarks(m, cs);
    forall e | e in cs ensures s.Issued(e) { }
    forall g | g in d.marked && g !in d.grey && s.IsLive(g) ensures ChildrenMarked(s, g, d.marked) {
      if g != h { assert g !in c.grey; assert ChildrenMarked(s, g, c.marked); }
    }
  }

  lemma {:induction false} ShadeEachMarks(c: Colours, hs: seq<Handle>)
    ensures ShadeEach(c, hs).marked == c.marked + (set h | h in hs)
  {
    if hs != [] {
      ShadeEachMarks(c, hs[..|hs| - 1]);
      assert hs == hs[..|hs| - 1] + [hs[|hs| - 1]];
    }
  }

  lemma {:induction false} StepByKeeps(s: State, c: Colours, budget: nat)
    requires TriColour(s, c)
    ensures TriColour(s, StepBy(s, c, budget)) && c.marked <= StepBy(s, c, budget).marked
    decreases budget
  {
    if budget > 0 && c.grey != [] {
      ScanTopKeeps(s, c);
      StepByKeeps(s, ScanTop(s, c), budget - 1);
    }
  }

  // ---- The mutator's steps

  /** Rewriting objects without freeing or allocating: every reference an object gained
      is marked already. */
  lemma RewriteKeeps(s: State, t: State, d: Colours)
    requires TriColour(s, d)
    requires forall h :: (s.IsLive(h) <==> t.IsLive(h)) && (s.Issued(h) <==> t.Issued(h))
    requires forall h, e | s.IsLive(h) && e in t.At(h).Trace() && s.IsLive(e) :: e in s.At(h).Trace() || e in d.marked
    ensures TriColour(t, d)
  {
    forall g | g in d.marked && g !in d.grey && t.IsLive(g) ensures ChildrenMarked(t, g, d.marked) {
      assert ChildrenMarked(s, g, d.marked);
    }
  }

  /** Same handles live and issued; only `h`'s object rewritten, to `v`. */
  ghost predicate Rewritten(s: State, t: State, h: Handle, v: Value) {
    && (forall g :: (s.IsLive(g) <==> t.IsLive(g)) && (s.Issued(g) <==> t.Issued(g)))
    && (forall g | s.IsLive(g) :: t.At(g) == if g == h then v else s.At(g))
  }

  lemma StoreKeeps(s: State, t: State, c: Colours, h: Handle, v: Value)
    requires TriColour(s, c) && s.IsLive(h) && s.EdgesIssued(v) && Rewritten(s, t, h, v)
    ensures TriColour(t, ShadeEach(c, Added(s.At(h), v)))
  {
    var hs := Added(s.At(h), v);
    forall e | e in hs ensures s.Issued(e) { assert e in v.Edges(); }
    ShadeEachKeeps(s, c, hs);
    RewriteKeeps(s, t, ShadeEach(c, hs));
  }

  lemma ExchangeKeeps(s: State, c: Colours, a: Handle, b: Handle)
    requires s.Inv() && TriColour(s, c) && s.IsLive(a) && s.IsLive(b)
    ensures var (t, d) := Next(s, c, Exchange(a, b)); TriColour(t, d) && c.marked <= d.marked
  {
    var d := ShadeEach(ShadeEach(c, Added(s.At(a), s.At(b))), Added(s.At(b), s.At(a)));
    ShadeBoth(s, c, a, b);
    SwapValues(s, a, b);
    assert Next(s, c, Exchange(a, b)) == (s.Swap(a, b), d);
    RewriteKeeps(s, s.Swap(a, b), d);
  }

  lemma ShadeBoth(s: State, c: Colours, a: Handle, b: Handle)
    requires s.NoForged() && TriColour(s, c) && s.IsLive(a) && s.IsLive(b)
    ensures var d := ShadeEach(ShadeEach(c, Added(s.At(a), s.At(b))), Added(s.At(b), s.At(a)));
      && TriColour(s, d) && c.marked <= d.marked
      && (forall e | e in Added(s.At(a), s.At(b)) || e in Added(s.At(b), s.At(a)) :: e in d.marked)
  {
    var (va, vb) := (s.At(a), s.At(b));
    assert s.EdgesIssued(s.slots[a.index].value.value) && s.EdgesIssued(s.slots[b.index].value.value);
    forall e | e in Added(va, vb) ensures s.Issued(e) { assert e in vb.Edges(); }
    forall e | e in Added(vb, va) ensures s.Issued(e) { assert e in va.Edges(); }
    ShadeEachKeeps(s, c, Added(va, vb));
    ShadeEachKeeps(s, ShadeEach(c, Added(va, vb)), Added(vb, va));
  }

  lemma SwapValues(s: State, a: Handle, b: Handle)
    requires s.IsLive(a) && s.IsLive(b)
    ensures var t := s.Swap(a, b);
      && (forall h :: (s.IsLive(h) <==> t.IsLive(h)) && (s.Issued(h) <==> t.Issued(h)))
      && (forall h | s.IsLive(h) :: t.At(h) == if h == a then s.At(b) else if h == b then s.At(a) else s.At(h))
  {
  }

  lemma StoreRewrites(s: State, h: Handle, v: Value)
    requires s.IsLive(h)
    ensures Rewritten(s, s.Store(h, v), h, v)
  {
  }

  lemma AppendRewrites(s: State, h: Handle, at: nat, v: Value)
    requires s.IsLive(h)
    ensures Rewritten(s, s.Append(h, at, v), h, v)
  {
    hide Slot.SetScan, Slot.ScanFrom;
  }

  lemma AllocKeeps(s: State, c: Colours, v: Value)
    requires s.Inv() && TriColour(s, c) && s.EdgesIssued(v) && s.Alloc(v).1.Some?
    ensures var (t, r) := s.Alloc(v); TriColour(t, c) && r.value !in c.marked
  {
    AllocInv(s, v);
    var (t, r) := s.Alloc(v);
    forall h | h in c.marked && h !in c.grey && t.IsLive(h) ensures ChildrenMarked(t, h, c.marked) {
      assert h.index != r.value.index;
      assert ChildrenMarked(s, h, c.marked);
      forall e | e in t.At(h).Trace() && t.IsLive(e) ensures e in c.marked {
        assert s.EdgesIssued(s.slots[h.index].value.value) && e in s.At(h).Edges();
        assert s.Issued(e) && e != r.value;
      }
    }
  }

  lemma FreeKeeps(s: State, c: Colours, h: Handle)
    requires s.Inv() && TriColour(s, c)
    ensures TriColour(s.Free(h), c)
  {
    FreeInv(s, h);
    var t := s.Free(h);
    assert forall g :: t.IsLive(g) ==> s.IsLive(g) && t.At(g) == s.At(g);
    forall g | g in c.marked && g !in c.grey && t.IsLive(g) ensures ChildrenMarked(t, g, c.marked) {
      assert ChildrenMarked(s, g, c.marked);
    }
  }

  // ---- Whole runs

  /** Any one action, by marker or mutator, keeps everything. */
  lemma NextKeeps(s: State, c: Colours, a: Action)
    requires s.Inv() && TriColour(s, c) && Allowed(s, a)
    ensures var (t, d) := Next(s, c, a); t.Inv() && TriColour(t, d) && c.marked <= d.marked
  {
    assert s.TableOk() && s.CountOk();
    match a
    case Mark(budget) => StepByKeeps(s, c, budget);
    case New(v) => if s.Alloc(v).1.Some? { AllocInv(s, v); AllocKeeps(s, c, v); }
    case Write(h, v) =>
      if s.IsLive(h) {
        StoreInv(s, h, v);
        ShadeEachMarks(c, Added(s.At(h), v));
        StoreRewrites(s, h, v);
        StoreKeeps(s, s.Store(h, v), c, h, v);
      }
    case WriteFrom(h, at, v) =>
      if s.IsLive(h) {
        AppendInv(s, h, at, v);
        ShadeEachMarks(c, Added(s.At(h), v));
        AppendRewrites(s, h, at, v);
        StoreKeeps(s, s.Append(h, at, v), c, h, v);
      }
    case Exchange(x, y) => SwapInv(s, x, y); if s.IsLive(x) && s.IsLive(y) { ExchangeKeeps(s, c, x, y); }
    case Drop(h) => FreeInv(s, h); FreeKeeps(s, c, h);
    case Root(h) =>
      ShadeEachNext(c, [], h);
      ShadeNone(c);
      assert [] + [h] == [h];
      ShadeEachKeeps(s, c, [h]);
  }

  /** A run whose every action is allowed where it happens. */
  ghost predicate IsRun(states: seq<State>, colours: seq<Colours>, acts: seq<Action>) {
    && |states| == |colours| == |acts| + 1
    && forall i | 0 <= i < |acts| ::
         && states[i].TableOk() && states[i].CountOk() && Allowed(states[i], acts[i])
         && (states[i + 1], colours[i + 1]) == Next(states[i], colours[i], acts[i])
  }

  /** The tri-colour invariant at every point of every interleaving; marks only grow. */
  lemma {:induction false} RunKeeps(states: seq<State>, colours: seq<Colours>, acts: seq<Action>, n: nat)
    requires IsRun(states, colours, acts) && n <= |acts|
    requires states[0].Inv() && TriColour(states[0], colours[0])
    ensures states[n].Inv() && TriColour(states[n], colours[n]) && colours[0].marked <= colours[n].marked
  {
    if n > 0 {
      RunKeeps(states, colours, acts, n - 1);
      NextKeeps(states[n - 1], colours[n - 1], acts[n - 1]);
    }
  }

  /** Starting to mark from issued roots establishes the invariant. */
  lemma BeginKeeps(s: State, roots: seq<Handle>)
    requires forall r | r in roots :: s.Issued(r)
    ensures var c := ShadeEach(Colours({}, []), roots); TriColour(s, c) && (forall r | r in roots :: r in c.marked)
  {
    ShadeEachKeeps(s, Colours({}, []), roots);
  }

  /** With no grey object left, everything a path reaches from marked handles is marked. */
  lemma {:induction false} PathMarked(s: State, c: Colours, path: seq<Handle>, j: nat)
    requires TriColour(s, c) && c.grey == [] && IsPath(s, false, path) && path[0] in c.marked && j < |path|
    ensures path[j] in c.marked
  {
    if j > 0 {
      PathMarked(s, c, path, j - 1);
      assert ChildrenMarked(s, path[j - 1], c.marked);
    }
  }

  /** Incremental marking is safe: marking begun from `roots`, run in any interleaving
      with allocations, frees and barriered stores, and complete (nothing grey), has
      marked everything then reachable from those roots, so `Sweep` frees none of it. */
  lemma IncrementalIsSafe(states: seq<State>, colours: seq<Colours>, acts: seq<Action>, roots: seq<Handle>, h: Handle)
    requires IsRun(states, colours, acts) && states[0].Inv()
    requires forall r | r in roots :: states[0].Issued(r)
    requires colours[0] == ShadeEach(Colours({}, []), roots)
    requires colours[|acts|].grey == []
    requires Reachable(states[|acts|], set r | r in roots, false, h)
    ensures h in colours[|acts|].marked && states[|acts|].Inv()
  {
    BeginKeeps(states[0], roots);
    RunKeeps(states, colours, acts, |acts|);
    var s, c := states[|acts|], colours[|acts|];
    var path :| IsPath(s, false, path) && path[0] in (set r | r in roots) && path[|path| - 1] == h;
    PathMarked(s, c, path, |path| - 1);
  }

  /** The limit of that promise: an object allocated while marking is white, so if the
      program keeps it only as a root it never shades, completed marking frees it. */
  lemma UnshadedAllocationIsWhite(s: State, c: Colours, v: Value)
    requires s.Inv() && TriColour(s, c) && s.EdgesIssued(v) && s.Alloc(v).1.Some?
    ensures var (t, r) := s.Alloc(v); t.IsLive(r.value) && r.value !in Next(s, c, New(v)).1.marked
  {
    AllocInv(s, v);
    AllocKeeps(s, c, v);
  }

  /** Left alone, marking finishes: as many scans as there are live white objects and
      grey entries leave nothing grey. */
  lemma {:induction false} MarkingFinishes(s: State, c: Colours, budget: nat)
    requires |LiveHandles(s) - c.marked| + |c.grey| <= budget
    ensures StepBy(s, c, budget).grey == []
    decreases budget
  {
    if budget > 0 && c.grey != [] {
      ScanTopProgress(s, c);
      MarkingFinishes(s, ScanTop(s, c), budget - 1);
    }
  }

  lemma ScanTopProgress(s: State, c: Colours)
    requires c.grey != []
    ensures var d := ScanTop(s, c); |LiveHandles(s) - d.marked| + |d.grey| < |LiveHandles(s) - c.marked| + |c.grey|
  {
    LiveHandlesAreLive(s);
    ShadeEachProgress(s, c.(grey := c.grey[..|c.grey| - 1]), LiveChildren(s, c.grey[|c.grey| - 1]));
  }

  lemma {:induction false} ShadeEachProgress(s: State, c: Colours, hs: seq<Handle>)
    requires forall h | h in hs :: h in LiveHandles(s)
    ensures var d := ShadeEach(c, hs); |LiveHandles(s) - d.marked| + |d.grey| == |LiveHandles(s) - c.marked| + |c.grey|
  {
    if hs != [] {
      var n := |hs| - 1;
      ShadeEachProgress(s, c, hs[..n]);
      var m := ShadeEach(c, hs[..n]);
      assert hs[n] in hs;
      assert LiveHandles(s) - (m.marked + {hs[n]}) == (LiveHandles(s) - m.marked) - {hs[n]};
    }
  }
}
