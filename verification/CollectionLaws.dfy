/** What a collection means for the objects: exactly the ones it must keep survive,
    unchanged, with no edge left to a freed one, and the invariants hold again. */
module CollectionLaws {
  import opened Wrappers
  import opened HeapTypes
  import opened HeapState
  import opened HeapInvariants
  import opened HeapSweeps
  import opened HeapSweepLaws
  import opened Reachability

  ghost function OldHandles(s: State): (o: set<Handle>)
    ensures forall h :: h in o <==> s.IsOld(h)
  {
    LiveHandlesAreLive(s);
    set h | h in LiveHandles(s) && s.IsOld(h)
  }

  function RootSet(roots: seq<Handle>): set<Handle> { set h | h in roots }

  /** A full collection follows the roots. */
  function FullPlan(roots: seq<Handle>, entries: seq<Entry>, scan: bool): Plan {
    Plan(RootSet(roots), entries, scan)
  }

  /** A minor collection presumes every old object alive. */
  ghost function MinorPlan(s: State, roots: seq<Handle>, entries: seq<Entry>): Plan {
    Plan(RootSet(roots) + OldHandles(s), entries, true)
  }

  ghost function Minor(s: State, roots: seq<Handle>, entries: seq<Entry>): State
    requires s.BookOk() && s.CountOk()
  {
    MinorCollect(s, Kept(s, MinorPlan(s, roots, entries)))
  }

  ghost function Major(s: State, roots: seq<Handle>, entries: seq<Entry>, scan: bool): State
    requires s.BookOk() && s.CountOk()
  {
    Sweep(s, Kept(s, FullPlan(roots, entries, scan)))
  }

  /** `t` holds exactly the objects of `k` that `s` held, each with the value it had. */
  ghost predicate Retains(s: State, t: State, k: set<Handle>) {
    && (forall h :: t.IsLive(h) <==> s.IsLive(h) && h in k)
    && (forall h | t.IsLive(h) :: t.At(h) == s.At(h))
  }

  /** Every slot is as it was but for its marks, or emptied with its generation bumped. */
  ghost predicate SweptFrom(s: State, t: State, k: set<Handle>) {
    && |t.slots| == |s.slots| && t.compactGen == s.compactGen
    && forall i | 0 <= i < |s.slots| ::
         if s.slots[i].Live() && s.HandleAt(i) in k
         then t.slots[i].value == s.slots[i].value && t.slots[i].generation == s.slots[i].generation && t.slots[i].Old()
         else t.slots[i].value.None? &&
              t.slots[i].generation == if s.slots[i].Live() then s.slots[i].NextGen() else s.slots[i].generation
  }

  lemma SweptRetains(s: State, t: State, k: set<Handle>)
    requires SweptFrom(s, t, k)
    ensures Retains(s, t, k)
  {
  }

  /** With no young object left there is nothing for the barrier to have missed. */
  lemma SweptGraph(s: State, t: State, k: set<Handle>)
    requires s.TableOk() && s.GraphOk() && SweptFrom(s, t, k)
    requires forall i | 0 <= i < |t.slots| && t.slots[i].Live() ::
      t.slots[i].dirty.Clean? ==> !t.slots[i].value.value.InteriorMutable()
    ensures t.GraphOk() && IssuedGrows(s, t)
  {
    assert IssuedGrows(s, t);
    forall i | 0 <= i < |t.slots| && t.slots[i].Live()
      ensures t.BarrierAt(i) && t.EdgesIssued(t.slots[i].value.value)
    {
      assert s.EdgesIssued(s.slots[i].value.value);
      assert forall e :: !t.IsYoung(e);
    }
  }

  /** No survivor keeps an edge to an object the collection freed. */
  lemma SurvivorsKeepTheirEdges(s: State, t: State, p: Plan, h: Handle, e: Handle)
    requires Retains(s, t, Kept(s, p)) && t.IsLive(h) && e in EdgesOf(t.At(h), p.scan) && s.IsLive(e)
    ensures t.IsLive(e) && t.At(e) == s.At(e)
  {
    assert EdgesIn(s, p, h, Kept(s, p));
  }

  lemma MinorSwept(s: State, roots: seq<Handle>, entries: seq<Entry>)
    requires s.BookOk() && s.CountOk() && s.StickyOk()
    ensures SweptFrom(s, Minor(s, roots, entries), Kept(s, MinorPlan(s, roots, entries)))
  {
    var p := MinorPlan(s, roots, entries);
    var k := Kept(s, p);
    MinorSlots(s, k);
    forall i | 0 <= i < |s.slots| && s.slots[i].Old() ensures s.HandleAt(i) in k {
      assert s.HandleAt(i) in p.roots;
    }
  }

  /** A minor collection is sound: from any state meeting the invariants, what survives
      is exactly what a path through any mix of old and young objects (or a live weak
      key) keeps, together with the old objects; values are untouched; no object is
      young any more; and the state meets the invariants again. */
  lemma MinorIsSound(s: State, roots: seq<Handle>, entries: seq<Entry>)
    requires s.Inv()
    ensures var t := Minor(s, roots, entries);
      && Retains(s, t, Kept(s, MinorPlan(s, roots, entries)))
      && t.Inv() && IssuedGrows(s, t)
      && (forall h :: !t.IsYoung(h))
      && (forall i: nat :: i in t.remembered <==> i < |t.slots| && RememberedForGood(t.slots[i]))
  {
    var k := Kept(s, MinorPlan(s, roots, entries));
    var t := Minor(s, roots, entries);
    BarrierKeepsSticky(s);
    MinorSwept(s, roots, entries);
    SweptRetains(s, t, k);
    MinorBook(s, k);
    MinorRemembered(s, k);
    MinorSlots(s, k);
    SweptGraph(s, t, k);
  }

  /** In particular nothing the program can still reach is freed by a minor collection. */
  lemma MinorKeepsReachable(s: State, roots: seq<Handle>, entries: seq<Entry>, h: Handle)
    requires s.Inv() && Reachable(s, RootSet(roots), true, h)
    ensures var t := Minor(s, roots, entries); t.IsLive(h) && t.At(h) == s.At(h)
  {
    var p := MinorPlan(s, roots, entries);
    var path :| IsPath(s, true, path) && path[0] in RootSet(roots) && path[|path| - 1] == h;
    assert path[0] in p.roots;
    ReachableIsKept(s, p, h);
    MinorIsSound(s, roots, entries);
  }

  /** A full collection leaves exactly the least set its mark phase computes. */
  lemma MajorIsExact(s: State, roots: seq<Handle>, entries: seq<Entry>, scan: bool)
    requires s.Inv()
    ensures var t := Major(s, roots, entries, scan);
      && Retains(s, t, Kept(s, FullPlan(roots, entries, scan)))
      && t.Inv() && IssuedGrows(s, t)
      && (forall h :: !t.IsYoung(h))
      && (forall i: nat :: i in t.remembered <==> i < |t.slots| && RememberedForGood(t.slots[i]))
  {
    var k := Kept(s, FullPlan(roots, entries, scan));
    FullSweepIsExact(s, k);
  }

  /** The full sweep on its own keeps exactly the live objects of `k`. */
  lemma FullSweepIsExact(s: State, k: set<Handle>)
    requires s.Inv()
    ensures var t := Sweep(s, k);
      && Retains(s, t, k)
      && t.Inv() && IssuedGrows(s, t)
      && (forall h :: !t.IsYoung(h))
      && (forall i: nat :: i in t.remembered <==> i < |t.slots| && RememberedForGood(t.slots[i]))
  {
    var t := Sweep(s, k);
    FullSlots(s, k);
    assert SweptFrom(s, t, k);
    SweptRetains(s, t, k);
    FullBook(s, k);
    FullRemembered(s, k);
    SweptGraph(s, t, k);
  }

  /** A full collection never frees what some path reaches from its roots. */
  lemma MajorKeepsReachable(s: State, roots: seq<Handle>, entries: seq<Entry>, scan: bool, h: Handle)
    requires s.Inv() && Reachable(s, RootSet(roots), scan, h)
    ensures var t := Major(s, roots, entries, scan); t.IsLive(h) && t.At(h) == s.At(h)
  {
    ReachableIsKept(s, FullPlan(roots, entries, scan), h);
    MajorIsExact(s, roots, entries, scan);
  }
}
