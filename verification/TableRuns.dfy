/** What no program can break: the table itself, in runs with any operations in any order,
    freed objects still referred to, compacted or not. */
module TableRuns {
  import opened Wrappers
  import opened HeapTypes
  import opened HeapState
  import opened HeapInvariants
  import opened HeapSweeps
  import opened HeapSweepLaws
  import opened Reachability
  import opened CollectionLaws
  import opened Compaction
  import opened HeapRuns

  /** The table is exact and counted, its young and its sticky objects are tracked, and
      every generation in use is a low one or the last compaction's. */
  ghost predicate Exact(s: State) {
    s.BookOk() && s.CountOk() && s.GenerationsOk() && s.StickyOk()
  }

  /** Only values and remembered-set marks differ. */
  ghost predicate Rewritten(s: State, t: State) {
    && t == s.(slots := t.slots, remembered := t.remembered) && |t.slots| == |s.slots|
    && forall i | 0 <= i < |s.slots| ::
         && t.slots[i].Live() == s.slots[i].Live()
         && t.slots[i].generation == s.slots[i].generation && t.slots[i].age == s.slots[i].age
  }

  lemma RewrittenExact(s: State, t: State)
    requires Exact(s) && Rewritten(s, t) && t.RememberedOk() && t.StickyOk()
    ensures Exact(t)
  {
    PromoteCount(s.slots, t.slots);
  }

  lemma RememberExact(s: State, i: nat)
    requires Exact(s)
    ensures var t := s.Remember(i);
      Exact(t) && Rewritten(s, t) && DueAt(t, i) && (forall j :: DueAt(s, j) ==> DueAt(t, j))
  {
    hide State.RememberedOk, State.TableOk, State.YoungTracked, State.CountOk, State.GenerationsOk;
    var t := s.Remember(i);
    RememberListed(s, i);
    if t != s { RewrittenExact(s, t); }
  }

  lemma RememberFromExact(s: State, i: nat, at: nat)
    requires Exact(s)
    ensures var t := s.RememberFrom(i, at);
      Exact(t) && Rewritten(s, t) && (i < |s.slots| && s.slots[i].Old() ==> !t.slots[i].dirty.Clean?)
  {
    hide Slot.SetScan, Slot.ScanFrom;
    var t := s.RememberFrom(i, at);
    if t.slots != s.slots {
      RememberFromListed(s, i, at);
      RewrittenExact(s, t);
    }
  }

  /** An object that is young, or due to be rescanned, may become anything. */
  lemma PutExact(s: State, h: Handle, v: Value)
    requires Exact(s) && s.IsLive(h)
    requires s.slots[h.index].Old() && s.slots[h.index].dirty.Clean? ==> !v.InteriorMutable()
    ensures Exact(s.Put(h, v)) && Rewritten(s, s.Put(h, v))
  {
    RewrittenExact(s, s.Put(h, v));
  }

  lemma InsideExact(s: State, h: Handle, v: Value)
    requires Exact(s)
    ensures Exact(s.Inside(h, v))
  {
    if s.IsLive(h) && s.At(h).InteriorMutable() && v.InteriorMutable() { PutExact(s, h, v); }
  }

  lemma SwapExact(s: State, a: Handle, b: Handle)
    requires Exact(s)
    ensures Exact(s.Swap(a, b))
  {
    if a.index != b.index && s.IsLive(a) && s.IsLive(b) {
      SwapIsBarrierThenExchange(s, a, b);
      RememberExact(s, a.index);
      RememberExact(s.Remember(a.index), b.index);
      var m := s.Remember(a.index).Remember(b.index);
      PutExact(m, a, s.At(b));
      PutExact(m.Put(a, s.At(b)), b, s.At(a));
    }
  }

  /** Vacant slots put last neither count nor break anything. */
  lemma ExtendsMarks(s: State, t: State)
    requires Extends(s, t) && s.GenerationsOk() && s.StickyOk()
    ensures t.GenerationsOk() && t.StickyOk() && LiveCount(t.slots) == LiveCount(s.slots)
  {
    LiveCountAppend(s.slots, Vacant(|t.slots| - |s.slots|));
    LiveCountVacant(|t.slots| - |s.slots|);
  }

  lemma AllocExact(s: State, v: Value)
    requires s.TableOk() && Exact(s) && s.Alloc(v).1.Some?
    ensures Exact(s.Alloc(v).0)
  {
    hide State.BookOk, State.BeforeTake, State.Take, State.GenerationsOk, State.StickyOk, Extends;
    BeforeTakeExtends(s);
    ExtendsMarks(s, s.BeforeTake());
    TakeExact(s.BeforeTake(), v);
  }

  lemma TakeExact(m: State, v: Value)
    requires m.TableOk() && m.BookOk() && m.GenerationsOk() && m.StickyOk()
    requires m.counted <= m.allocs && m.Len() == LiveCount(m.slots) + 1 && m.Take(v).1.Some?
    ensures Exact(m.Take(v).0)
  {
    hide State.BookOk;
    TakeMarks(m, v);
    if m.freeTop > 0 { TakeFromFreeList(m, v); } else { PushSlot(m, v); }
  }

  /** The slot taken is a young one of a low generation. */
  lemma TakeMarks(m: State, v: Value)
    requires m.TableOk() && m.GenerationsOk() && m.StickyOk()
    ensures m.Take(v).0.GenerationsOk() && m.Take(v).0.StickyOk()
  {
    if m.freeTop > 0 { assert m.free[m.freeTop - 1] in m.free[..m.freeTop]; }
  }

  lemma FreeExact(s: State, h: Handle)
    requires Exact(s)
    ensures Exact(s.Free(h))
  {
    if s.IsLive(h) {
      FreeBook(s, h);
      FreeMarks(s, h);
      hide State.BookOk;
      LiveCountUpdate(s.slots, h.index, s.Free(h).slots[h.index]);
    }
  }

  lemma FreeMarks(s: State, h: Handle)
    requires s.TableOk() && s.CountOk() && s.GenerationsOk() && s.StickyOk() && s.IsLive(h)
    ensures var t := s.Free(h); t.GenerationsOk() && t.StickyOk()
  {
    var t := s.Free(h);
    assert !t.slots[h.index].Live();
    assert forall i | 0 <= i < |t.slots| && t.slots[i].Live() :: t.slots[i] == s.slots[i];
  }

  lemma ReserveExact(s: State, n: nat)
    requires Exact(s)
    ensures Exact(s.ReserveFree(n))
  {
    hide State.BookOk, State.ReserveFree, State.GenerationsOk, State.StickyOk, Extends;
    ReserveFreeParts(s, n);
    ExtendsMarks(s, s.ReserveFree(n));
  }

  lemma SweptExact(s: State, t: State, k: set<Handle>)
    requires Exact(s) && SweptFrom(s, t, k) && t.BookOk() && t.CountOk()
    requires forall i: nat :: i in t.remembered <==> i < |t.slots| && RememberedForGood(t.slots[i])
    ensures Exact(t)
  {
    forall i | 0 <= i < |t.slots| && t.slots[i].Old() && t.slots[i].dirty == Clean
      ensures !t.slots[i].value.value.InteriorMutable()
    {
      assert i !in t.remembered;
    }
  }

  lemma CollectExact(s: State, op: Op)
    requires Exact(s) && (op.MinorGc? || op.MajorGc?)
    ensures Exact(Apply(s, op))
  {
    hide State.RememberedOk, State.YoungTracked, State.CountOk, State.TableOk, State.GenerationsOk;
    match op
    case MinorGc(roots, entries) =>
      var k := Kept(s, MinorPlan(s, roots, entries));
      MinorSwept(s, roots, entries);
      MinorBook(s, k);
      MinorRemembered(s, k);
      SweptExact(s, Apply(s, op), k);
    case MajorGc(roots, entries, scan) =>
      var k := Kept(s, FullPlan(roots, entries, scan));
      FullSlots(s, k);
      FullBook(s, k);
      FullRemembered(s, k);
      SweptExact(s, Apply(s, op), k);
  }

  lemma ResetExact(s: State)
    requires Exact(s)
    ensures Exact(s.ResetAllocPressure())
  {
  }

  lemma CompactExact(s: State, keep: set<Handle>)
    requires Exact(s)
    ensures Exact(Compact(s, keep))
  {
    CompactBook(s, keep);
    BarrierKeepsSticky(Compact(s, keep));
  }

  /** An allocation finds a slot. */
  ghost predicate Granted(s: State, op: Op)
    requires Exact(s)
  {
    op.Alloc? ==> s.Alloc(op.v).1.Some?
  }

  /** Every operation keeps the table, whatever is stored and whatever was freed. */
  lemma OpKeepsTable(s: State, op: Op)
    requires Exact(s) && Granted(s, op)
    ensures Exact(Apply(s, op))
  {
    hide State.TableOk, State.YoungTracked, State.RememberedOk, State.CountOk, State.GenerationsOk, State.StickyOk;
    match op
    case Alloc(v) => AllocExact(s, v);
    case Store(h, v) =>
      if s.IsLive(h) {
        RememberExact(s, h.index);
        PutExact(s.Remember(h.index), h, v);
      }
    case Append(h, at, v) =>
      if s.IsLive(h) {
        RememberFromExact(s, h.index, at);
        PutExact(s.RememberFrom(h.index, at), h, v);
      }
    case Inside(h, v) => InsideExact(s, h, v);
    case Swap(a, b) => SwapExact(s, a, b);
    case RecordEdge(c, t, age) => RememberExact(s, c.index);
    case Free(h) => FreeExact(s, h);
    case ReserveFree(n) => ReserveExact(s, n);
    case ResetPressure => ResetExact(s);
    case MinorGc(_, _) => CollectExact(s, op);
    case MajorGc(_, _, _) => CollectExact(s, op);
    case MoveGc(roots) => CompactExact(s, Kept(s, FullPlan(roots, [], false)));
  }

  ghost predicate AnyStep(s: State, op: Op, t: State) {
    Exact(s) ==> Granted(s, op) && t == Apply(s, op)
  }

  lemma EmptyExact()
    ensures Exact(EMPTY)
  {
    EmptyInv();
  }

  /** In every run, however many compactions it has and whatever the program stores and
      frees, the table is exact, and forwarding twice is forwarding once. */
  lemma {:induction false} TableSurvivesAnyRun(states: seq<State>, ops: seq<Op>, n: nat)
    requires n <= |ops| && |states| == |ops| + 1 && states[0] == EMPTY
    requires forall i | 0 <= i < n :: AnyStep(states[i], ops[i], states[i + 1])
    ensures Exact(states[n])
    ensures forall keep, h :: ForwardedOnce(states[n], keep, h)
  {
    hide Apply, Granted, State.BookOk, State.CountOk, State.StickyOk;
    if n == 0 {
      EmptyExact();
    } else {
      TableSurvivesAnyRun(states, ops, n - 1);
      assert AnyStep(states[n - 1], ops[n - 1], states[n]);
      OpKeepsTable(states[n - 1], ops[n - 1]);
    }
    forall keep, h ensures ForwardedOnce(states[n], keep, h) { ForwardIdempotent(states[n], keep, h); }
  }

  predicate ForwardedOnce(s: State, keep: set<Handle>, h: Handle) {
    Forward(s, keep, Forward(s, keep, h)) == Forward(s, keep, h)
  }
}
