/** Every transition of the handle table keeps the invariants, and what each does
    to the objects themselves. */
module HeapInvariants {
  import opened Wrappers
  import opened HeapTypes
  import opened HeapState

  /** Slot `i` may have changed; every other live handle means what it meant. */
  ghost predicate OthersKept(s: State, t: State, i: nat) {
    && |s.slots| <= |t.slots|
    && (forall h: Handle | h.index != i :: s.IsLive(h) <==> t.IsLive(h))
    && (forall h: Handle | h.index != i && s.IsLive(h) ::
          t.At(h) == s.At(h) && t.slots[h.index].age == s.slots[h.index].age)
  }

  /** Handles once issued stay issued. */
  ghost predicate IssuedGrows(s: State, t: State) {
    forall h: Handle :: s.Issued(h) ==> t.Issued(h)
  }

  /** Slots that kept their contents, or hold young objects with issued edges,
      cannot break the object part of the invariant. */
  lemma GraphKept(s: State, t: State)
    requires s.GraphOk() && t.compactGen == s.compactGen && IssuedGrows(s, t)
    requires forall e :: s.Issued(e) && t.IsYoung(e) ==> s.IsYoung(e)
    requires forall j | 0 <= j < |t.slots| && t.slots[j].Live() ::
      (j < |s.slots| && t.slots[j] == s.slots[j]) || FreshSlot(s, t.slots[j])
    ensures t.GraphOk()
  {
    forall j | 0 <= j < |t.slots| && t.slots[j].Live()
      ensures t.BarrierAt(j) && t.EdgesIssued(t.slots[j].value.value)
    {
      if j < |s.slots| && t.slots[j] == s.slots[j] {
        var v := s.slots[j].value.value;
        assert s.BarrierAt(j) && s.EdgesIssued(v);
        HeadWithinEdges(v, t.slots[j].ScanFrom());
      }
    }
  }

  ghost predicate FreshSlot(s: State, slot: Slot) {
    slot.Young() && s.EdgesIssued(slot.value.value) && slot.generation < COMPACT_GEN_BASE
  }

  // ---- Allocation

  /** Appending vacant slots changes no object. */
  lemma VacantSlotsGraph(s: State, t: State)
    requires s.GraphOk() && Extends(s, t)
    ensures t.GraphOk() && IssuedGrows(s, t) && LiveCount(t.slots) == LiveCount(s.slots)
    ensures forall h :: t.IsLive(h) <==> s.IsLive(h)
  {
    var add := |t.slots| - |s.slots|;
    LiveCountAppend(s.slots, Vacant(add));
    LiveCountVacant(add);
    assert forall j | 0 <= j < |t.slots| && t.slots[j].Live() :: j < |s.slots| && t.slots[j] == s.slots[j];
    assert forall h :: t.IsLive(h) <==> s.IsLive(h);
    GraphKept(s, t);
  }

  lemma TopUpBook(s: State, want: nat)
    requires s.BookOk()
    ensures s.TopUpFree(want).BookOk()
  {
    TopUpParts(s, want);
    TopUpTableOk(s, want);
  }

  /** The counters are no part of the table's bookkeeping. */
  lemma CountersBook(s: State, t: State)
    requires s.BookOk() && t == s.(live := t.live, counted := t.counted, allocs := t.allocs)
    ensures t.BookOk()
  {
  }

  /** `t` is `s` with vacant slots appended. */
  ghost predicate Extends(s: State, t: State) {
    && t.compactGen == s.compactGen && |s.slots| <= |t.slots|
    && t.slots == s.slots + Vacant(|t.slots| - |s.slots|)
  }

  lemma TopUpExtends(s: State, want: nat)
    requires s.freeTop <= |s.free|
    ensures Extends(s, s.TopUpFree(want))
  {
    TopUpParts(s, want);
  }

  lemma BeforeTakeExtends(s: State)
    requires s.BookOk() && s.CountOk()
    ensures var t := s.BeforeTake();
      t.TableOk() && t.BookOk() && Extends(s, t) && t.counted <= t.allocs && t.Len() == s.Len() + 1
  {
    var s1 := s.(allocs := s.allocs + 1);
    CountersBook(s, s1);
    assert s1.freeTop <= |s1.free|;
    hide State.BookOk;
    var n := Clamp(|s.slots| / 8, FREE_TOP_UP_MIN, FREE_TOP_UP_MAX);
    BeforeTakeOk(s);
    TopUpBook(s1, n);
    TopUpExtends(s1, n);
    assert Extends(s, s1) by { assert s.slots + Vacant(0) == s.slots; }
  }

  /** Taking a slot: its new handle was never issued before. */
  lemma TakeInv(m: State, v: Value)
    requires m.TableOk() && m.BookOk() && m.GraphOk() && m.EdgesIssued(v)
    ensures var (t, r) := m.Take(v);
      r.Some? ==>
        && t.BookOk() && t.GraphOk() && IssuedGrows(m, t) && LiveCount(t.slots) == LiveCount(m.slots) + 1
        && !m.Issued(r.value) && t.IsYoung(r.value) && t.At(r.value) == v
        && OthersKept(m, t, r.value.index) && (forall h: Handle | h.index == r.value.index :: !m.IsLive(h))
        && t.counted == m.counted && t.allocs == m.allocs && t.live == m.live
  {
    hide State.BookOk, State.GraphOk;
    var (t, r) := m.Take(v);
    if r.Some? {
      TakeObjects(m, v);
      if m.freeTop > 0 {
        TakeFromFreeList(m, v);
      } else {
        PushSlot(m, v);
      }
    }
  }

  lemma TakeObjects(m: State, v: Value)
    requires m.TableOk() && m.GraphOk() && m.EdgesIssued(v) && m.Take(v).1.Some?
    ensures var (t, r) := m.Take(v);
      && t.GraphOk() && IssuedGrows(m, t)
      && !m.Issued(r.value) && t.IsYoung(r.value) && t.At(r.value) == v
      && OthersKept(m, t, r.value.index) && (forall h: Handle | h.index == r.value.index :: !m.IsLive(h))
  {
    var (t, r) := m.Take(v);
    if m.freeTop > 0 {
      assert m.free[..m.freeTop][m.freeTop - 1] == r.value.index;
      assert r.value.index in m.free[..m.freeTop];
    }
    GraphKept(m, t);
  }

  lemma PushSlot(m: State, v: Value)
    requires m.BookOk() && m.freeTop == 0 && |m.slots| < NO_INDEX
    ensures m.Take(v).0.BookOk() && LiveCount(m.Take(v).0.slots) == LiveCount(m.slots) + 1
  {
    var t := m.Take(v).0;
    assert t.slots[..|m.slots|] == m.slots;
    assert forall j | 0 <= j < |m.slots| :: t.slots[j] == m.slots[j];
  }

  lemma OthersKeptAfterExtending(s: State, m: State, t: State, i: nat)
    requires Extends(s, m) && OthersKept(m, t, i)
    ensures OthersKept(s, t, i)
  {
    assert forall h :: s.IsLive(h) <==> m.IsLive(h);
  }

  lemma CanTake(m: State)
    requires m.TableOk()
    ensures m.freeTop <= |m.free| && (m.freeTop > 0 ==> m.free[m.freeTop - 1] < |m.slots|)
  {
  }

  /** A successful allocation keeps the invariants and returns a handle never
      issued before, young and holding the value; nothing else changes. */
  lemma AllocInv(s: State, v: Value)
    requires s.Inv() && s.EdgesIssued(v)
    ensures var (t, r) := s.Alloc(v);
      r.Some? ==>
        && t.Inv() && IssuedGrows(s, t)
        && !s.Issued(r.value) && t.IsYoung(r.value) && t.At(r.value) == v
        && OthersKept(s, t, r.value.index) && (forall h: Handle | h.index == r.value.index :: !s.IsLive(h))
  {
    hide State.BookOk, State.GraphOk, State.TableOk, State.BeforeTake, State.Take, Extends;
    BeforeTakeExtends(s);
    VacantSlotsGraph(s, s.BeforeTake());
    var m := s.BeforeTake();
    CanTake(m);
    TakeInv(m, v);
    var (t, r) := m.Take(v);
    if r.Some? {
      OthersKeptAfterExtending(s, m, t, r.value.index);
      hide OthersKept;
    }
  }

  lemma HeadWithinEdges(v: Value, p: nat)
    ensures forall e :: e in v.TraceHead(p) ==> e in v.Edges()
  {
    forall e | e in v.TraceHead(p) ensures e in v.Edges() { HeadAndTailCoverTrace(v, p, e); }
  }

  lemma TakeFromFreeList(m: State, v: Value)
    requires m.BookOk() && m.freeTop > 0
    ensures var (t, r) := m.Take(v); var i := m.free[m.freeTop - 1];
      && r == Some(m.HandleAt(i)) && m.slots[i].value.None? && m.slots[i].generation < COMPACT_GEN_BASE
      && t.BookOk()
      && LiveCount(t.slots) == LiveCount(m.slots) + 1
  {
    var (t, r) := m.Take(v);
    var i := m.free[m.freeTop - 1];
    LastIsOff(m.free, m.freeTop);
    assert t.free[t.freeTop..] == [i] + m.free[m.freeTop..];
    LiveCountUpdate(m.slots, i, t.slots[i]);
  }

  /** The last of the still-free entries, taken off, is on it no more. */
  lemma LastIsOff(free: seq<nat>, top: nat)
    requires 0 < top <= |free| && NoDup(free[..top])
    ensures var n := top - 1;
      && free[..top] == free[..n] + [free[n]] && free[n] in free[..top] && free[n] !in free[..n] && NoDup(free[..n])
  {
    var n := top - 1;
    assert free[..top] == free[..n] + [free[n]];
    assert free[..top][n] == free[n];
    forall j, k | 0 <= j < k < n ensures free[..n][j] != free[..n][k] {
      assert free[..top][j] != free[..top][k];
    }
    forall j | 0 <= j < n ensures free[..n][j] != free[n] {
      assert free[..top][j] != free[..top][n];
    }
  }

  // ---- The write barrier

  /** Only remembered-set marks differ. */
  ghost predicate Relabelled(s: State, t: State) {
    && |t.slots| == |s.slots|
    && forall j | 0 <= j < |s.slots| ::
         t.slots[j].value == s.slots[j].value && t.slots[j].generation == s.slots[j].generation
         && t.slots[j].age == s.slots[j].age
  }

  /** The next minor collection rescans all of slot `i`, or does not need to. */
  ghost predicate DueAt(s: State, i: nat) {
    i < |s.slots| && s.slots[i].Old() ==> s.slots[i].dirty.Dirty? || s.slots[i].dirty.Sticky?
  }

  /** After `Remember` an old slot owes nothing: it may be rewritten freely. */
  lemma RememberInv(s: State, i: nat)
    requires s.Inv()
    ensures var t := s.Remember(i);
      && t.Inv() && Relabelled(s, t) && DueAt(t, i) && (forall j :: DueAt(s, j) ==> DueAt(t, j))
  {
    hide State.RememberedOk, State.TableOk, State.YoungTracked, State.CountOk, State.GraphOk;
    var t := s.Remember(i);
    RememberListed(s, i);
    if t != s {
      LiveCountUpdate(s.slots, i, t.slots[i]);
      RelabelInv(s, t);
    }
  }

  lemma RememberListed(s: State, i: nat)
    requires s.RememberedOk()
    ensures s.Remember(i).RememberedOk()
  {
  }

  /** What `RememberFrom` relies on when it records `at`. */
  lemma CleanBefore(s: State, i: nat, at: nat)
    requires s.BarrierOk() && i < |s.slots| && s.slots[i].Old()
    requires s.slots[i].dirty.Clean? || (s.slots[i].dirty.Appended? && at <= s.slots[i].ScanFrom())
    ensures forall e | e in s.slots[i].value.value.TraceHead(at) :: !s.IsYoung(e)
  {
    var v := s.slots[i].value.value;
    assert s.BarrierAt(i);
    if s.slots[i].dirty.Appended? { HeadGrows(v, at, s.slots[i].ScanFrom()); }
    HeadWithinEdges(v, at);
  }

  lemma RememberFromListed(s: State, i: nat, at: nat)
    requires s.RememberedOk()
    ensures s.RememberFrom(i, at).RememberedOk()
  {
    hide Slot.SetScan, Slot.ScanFrom;
  }

  lemma RememberFromInv(s: State, i: nat, at: nat)
    requires s.Inv()
    ensures var t := s.RememberFrom(i, at);
      && t.Inv() && |t.slots| == |s.slots|
      && (i < |s.slots| && s.slots[i].Old() && t.slots[i].dirty.Appended? ==> t.slots[i].ScanFrom() <= at)
      && (i < |s.slots| && s.slots[i].Old() ==> !t.slots[i].dirty.Clean?)
      && Relabelled(s, t)
  {
    hide Slot.SetScan, Slot.ScanFrom, State.RememberedOk, State.YoungTracked;
    var t := s.RememberFrom(i, at);
    if t.slots != s.slots || t.remembered != s.remembered {
      LiveCountUpdate(s.slots, i, t.slots[i]);
      RememberFromListed(s, i, at);
      CleanBefore(s, i, at);
      RelabelInv(s, t);
    }
  }

  /** Only remembered-set marks of old objects changed, soundly. */
  lemma RelabelInv(s: State, t: State)
    requires s.Inv()
    requires t == s.(slots := t.slots, remembered := t.remembered)
    requires Relabelled(s, t) && t.RememberedOk()
    requires LiveCount(t.slots) == LiveCount(s.slots)
    requires forall j | 0 <= j < |s.slots| && s.slots[j].Old() ::
      (t.slots[j].dirty == s.slots[j].dirty && t.slots[j].ScanFrom() == s.slots[j].ScanFrom())
      || t.slots[j].dirty.Dirty? || t.slots[j].dirty.Sticky?
      || (t.slots[j].dirty.Appended? &&
          forall e | e in s.slots[j].value.value.TraceHead(t.slots[j].ScanFrom()) :: !s.IsYoung(e))
    ensures t.Inv()
  {
    assert forall h :: s.IsLive(h) <==> t.IsLive(h);
    assert forall h :: s.IsYoung(h) <==> t.IsYoung(h);
    assert forall h :: s.Issued(h) <==> t.Issued(h);
    forall j | 0 <= j < |t.slots| && t.slots[j].Live()
      ensures t.BarrierAt(j) && t.EdgesIssued(t.slots[j].value.value)
    {
      assert s.BarrierAt(j) && s.EdgesIssued(s.slots[j].value.value);
    }
  }

  /** The table has nothing to do with values. */
  lemma PutBook(s: State, h: Handle, v: Value)
    requires s.BookOk() && s.CountOk() && s.IsLive(h)
    ensures s.Put(h, v).BookOk() && s.Put(h, v).CountOk()
  {
    LiveCountUpdate(s.slots, h.index, s.Put(h, v).slots[h.index]);
  }

  /** Rewriting a slot whose owner owes no promise about `v` keeps everything. */
  lemma PutInv(s: State, h: Handle, v: Value)
    requires s.Inv() && s.IsLive(h) && s.EdgesIssued(v)
    requires s.slots[h.index].Old() ==> !s.slots[h.index].dirty.Clean?
    requires s.slots[h.index].Old() && s.slots[h.index].dirty.Appended? ==>
      forall e | e in v.TraceHead(s.slots[h.index].ScanFrom()) :: !s.IsYoung(e)
    ensures var t := s.Put(h, v);
      t.Inv() && t.IsLive(h) && t.At(h) == v && OthersKept(s, t, h.index)
  {
    hide State.BookOk, State.CountOk;
    var t := s.Put(h, v);
    PutBook(s, h, v);
    assert forall g :: s.IsLive(g) <==> t.IsLive(g);
    assert forall g :: s.IsYoung(g) <==> t.IsYoung(g);
    assert forall g :: s.Issued(g) <==> t.Issued(g);
    forall j | 0 <= j < |t.slots| && t.slots[j].Live()
      ensures t.BarrierAt(j) && t.EdgesIssued(t.slots[j].value.value)
    {
      if j != h.index { assert s.BarrierAt(j) && s.EdgesIssued(s.slots[j].value.value); }
    }
  }

  lemma StoreInv(s: State, h: Handle, v: Value)
    requires s.Inv() && s.EdgesIssued(v)
    ensures var t := s.Store(h, v);
      t.Inv() && OthersKept(s, t, h.index) && (s.IsLive(h) ==> t.IsLive(h) && t.At(h) == v)
  {
    if s.IsLive(h) {
      RememberInv(s, h.index);
      var m := s.Remember(h.index);
      assert forall g :: s.Issued(g) <==> m.Issued(g);
      PutInv(m, h, v);
    }
  }

  /** An append that keeps its promise about the earlier positions is safe even
      though the next minor collection will not rescan them. */
  lemma AppendInv(s: State, h: Handle, at: nat, v: Value)
    requires s.Inv() && s.EdgesIssued(v)
    requires s.IsLive(h) ==> UnchangedBefore(s.At(h), v, at)
    ensures var t := s.Append(h, at, v);
      t.Inv() && OthersKept(s, t, h.index) && (s.IsLive(h) ==> t.IsLive(h) && t.At(h) == v)
  {
    if s.IsLive(h) {
      RememberFromInv(s, h.index, at);
      var m := s.RememberFrom(h.index, at);
      assert forall g :: s.Issued(g) <==> m.Issued(g);
      var p := m.slots[h.index].ScanFrom();
      if m.slots[h.index].Old() && m.slots[h.index].dirty.Appended? {
        assert m.BarrierAt(h.index);
        assert HeadWithin(v, s.At(h), p);
      }
      PutInv(m, h, v);
    }
  }

  lemma InsideInv(s: State, h: Handle, v: Value)
    requires s.Inv() && s.EdgesIssued(v)
    ensures s.Inside(h, v).Inv()
  {
    if s.IsLive(h) && s.At(h).InteriorMutable() && v.InteriorMutable() {
      assert s.BarrierAt(h.index);
      PutInv(s, h, v);
    }
  }

  lemma SwapInv(s: State, a: Handle, b: Handle)
    requires s.Inv()
    ensures s.Swap(a, b).Inv()
  {
    if a.index != b.index && s.IsLive(a) && s.IsLive(b) {
      hide State.Inv;
      SwapIsBarrierThenExchange(s, a, b);
      RememberInv(s, a.index);
      var m1 := s.Remember(a.index);
      RememberInv(m1, b.index);
      var m := m1.Remember(b.index);
      hide State.Remember, State.Swap, State.Put, DueAt;
      ExchangeInv(m, a, b);
    }
  }

  /** Two live objects change places, both slots are due for rescanning, and no other object
      changes; with a stale handle, or one slot twice, nothing does. */
  lemma SwapExchanges(s: State, a: Handle, b: Handle)
    ensures var t := s.Swap(a, b); var done := a.index != b.index && s.IsLive(a) && s.IsLive(b);
      && (forall h :: s.IsLive(h) <==> t.IsLive(h))
      && (forall h | s.IsLive(h) ::
            t.At(h) == if done && h == a then s.At(b) else if done && h == b then s.At(a) else s.At(h))
      && (done ==> DueAt(t, a.index) && DueAt(t, b.index))
      && (!done ==> t == s)
  {
    if a.index != b.index && s.IsLive(a) && s.IsLive(b) {
      var u := s.Put(a, s.At(b)).Put(b, s.At(a));
      var v := u.Remember(a.index);
      assert forall h | s.IsLive(h) :: u.IsLive(h) && v.IsLive(h) && v.At(h) == u.At(h);
    }
  }

  lemma SwapIsBarrierThenExchange(s: State, a: Handle, b: Handle)
    requires a.index != b.index && s.IsLive(a) && s.IsLive(b)
    ensures s.Swap(a, b) == s.Remember(a.index).Remember(b.index).Put(a, s.At(b)).Put(b, s.At(a))
  {
    assert s.Swap(a, b).slots == s.Remember(a.index).Remember(b.index).Put(a, s.At(b)).Put(b, s.At(a)).slots;
  }

  lemma ExchangeInv(m: State, a: Handle, b: Handle)
    requires m.Inv() && m.IsLive(a) && m.IsLive(b) && a.index != b.index
    requires DueAt(m, a.index) && DueAt(m, b.index)
    ensures m.Put(a, m.At(b)).Put(b, m.At(a)).Inv()
  {
    var (va, vb) := (m.At(a), m.At(b));
    assert m.EdgesIssued(m.slots[a.index].value.value) && m.EdgesIssued(m.slots[b.index].value.value);
    PutInv(m, a, vb);
    var n := m.Put(a, vb);
    assert forall g :: m.Issued(g) <==> n.Issued(g);
    assert n.EdgesIssued(va);
    PutInv(n, b, va);
  }

  lemma RecordEdgeInv(s: State, c: Handle, target: Handle, oldAge: nat)
    requires s.Inv()
    ensures var t := s.RecordEdge(c, target, oldAge); t.Inv() && Relabelled(s, t)
    ensures s.IsLive(c) && s.IsLive(target) && s.slots[target.index].age < oldAge <= s.slots[c.index].age ==>
      DueAt(s.RecordEdge(c, target, oldAge), c.index)
  {
    RememberInv(s, c.index);
  }

  // ---- Freeing

  lemma FoldInv(s: State)
    requires s.Inv()
    ensures s.FoldAllocs().Inv() && s.ResetAllocPressure().Inv()
    ensures s.FoldAllocs().live == LiveCount(s.slots)
  {
    SameSlotsInv(s, s.FoldAllocs());
    SameSlotsInv(s, s.ResetAllocPressure());
  }

  /** Only the counters changed. */
  lemma SameSlotsInv(s: State, t: State)
    requires s.Inv() && t.CountOk()
    requires t == s.(live := t.live, counted := t.counted, allocs := t.allocs)
    ensures t.Inv()
  {
    forall i | 0 <= i < |t.slots| && t.slots[i].Live()
      ensures t.BarrierAt(i) && t.EdgesIssued(t.slots[i].value.value)
    {
      assert s.BarrierAt(i) && s.EdgesIssued(s.slots[i].value.value);
    }
  }

  lemma FreeInv(s: State, h: Handle)
    requires s.Inv()
    ensures var t := s.Free(h);
      && t.Inv() && !t.IsLive(h) && OthersKept(s, t, h.index) && IssuedGrows(s, t)
      && (s.IsLive(h) ==> t.Len() == s.Len() - 1)
  {
    FoldInv(s);
    if s.IsLive(h) {
      FreeBook(s, h);
      FreeObjects(s, h);
    }
  }

  lemma FreeObjects(s: State, h: Handle)
    requires s.TableOk() && s.CountOk() && s.GraphOk() && s.IsLive(h)
    ensures var t := s.Free(h);
      && t.GraphOk() && t.CountOk() && !t.IsLive(h) && OthersKept(s, t, h.index) && IssuedGrows(s, t)
      && t.Len() == s.Len() - 1
  {
    hide State.GraphOk, NoDup;
    var t := s.Free(h);
    LiveCountUpdate(s.slots, h.index, t.slots[h.index]);
    GraphKept(s, t);
  }

  lemma FreeBook(s: State, h: Handle)
    requires s.BookOk() && s.CountOk() && s.IsLive(h)
    ensures s.Free(h).BookOk()
  {
    var t := s.Free(h);
    var i := h.index;
    assert i !in s.free[..s.freeTop];
    assert t.free[t.freeTop..] == s.free[s.freeTop..];
    assert forall k | 0 <= k < |t.remembered| :: t.remembered[k] in s.remembered;
    if t.freeTop > s.freeTop { FreePushes(s, h); }
  }

  lemma FreePushes(s: State, h: Handle)
    requires s.BookOk() && s.CountOk() && s.IsLive(h) && s.Free(h).freeTop > s.freeTop
      && h.index !in s.free[..s.freeTop]
    ensures var t := s.Free(h);
      && t.free[..t.freeTop] == s.free[..s.freeTop] + [h.index]
      && (forall k | 0 <= k < |t.free| :: t.free[k] in s.free || t.free[k] == h.index)
      && t.TableOk() && t.YoungTracked()
  {
    var t := s.Free(h);
    assert t.free[t.freeTop..] == s.free[s.freeTop..];
  }

  lemma ReserveFreeInv(s: State, n: nat)
    requires s.Inv()
    ensures var t := s.ReserveFree(n);
      && t.Inv() && IssuedGrows(s, t) && |s.slots| <= |t.slots|
      && (forall h :: t.IsLive(h) <==> s.IsLive(h))
  {
    ReserveFreeParts(s, n);
    hide State.BookOk, State.GraphOk, State.TopUpFree, State.ReserveFree;
    VacantSlotsGraph(s, s.ReserveFree(n));
  }

  lemma ReserveFreeParts(s: State, n: nat)
    requires s.BookOk()
    ensures var t := s.ReserveFree(n);
      t.BookOk() && Extends(s, t) && t.counted == s.counted && t.allocs == s.allocs && t.live == s.live
  {
    var want := if n >= s.freeTop then n - s.freeTop else 0;
    TopUpExtends(s, want);
    TopUpBook(s, want);
    hide State.BookOk, State.TopUpFree;
    assert Extends(s, s) by { assert s.slots + Vacant(0) == s.slots; }
    hide Extends;
  }

  /** Right after a collection a reservation makes the next `n` allocations reuse slots. */
  lemma ReserveFreeFills(s: State, n: nat)
    requires s.freeTop == |s.free| && s.youngFloor == |s.slots| && |s.slots| + n < NO_INDEX
    ensures s.ReserveFree(n).freeTop == (if n >= s.freeTop then n else s.freeTop)
  {
  }

  lemma EmptyInv()
    ensures EMPTY.Inv() && EMPTY.NoDangling() && EMPTY.Len() == 0
  {
  }
}
