/** The mark phase of a full collection: the mark set, the grey worklist, and the
    ephemeron fixpoint. */
module Marking {
  import opened HeapTypes
  import opened HeapState
  import opened HeapTable
  import opened Reachability
  import opened CollectionLaws

  /** One entry per slot: the marked handle's generation plus one, `0` for unmarked. */
  class MarkSet {
    var marks: seq<nat>
    var count: nat

    ghost predicate Valid()
      reads this
    {
      count == Marked(marks)
    }

    predicate Contains(h: Handle)
      reads this
      ensures Contains(h) <==> h in Contents()
    {
      h.index < |marks| && marks[h.index] == h.generation + 1
    }

    ghost function Contents(): set<Handle>
      reads this
    {
      HandlesOf(marks)
    }

    constructor (slots: nat)
      ensures Valid() && Contents() == {}
    {
      MarkedZeros(slots);
      marks, count := Zeros(slots), 0;
    }

    /** The marked handles, in slot order. */
    method Members() returns (hs: set<Handle>)
      ensures hs == Contents()
    {
      hs := {};
      for i := 0 to |marks|
        invariant forall h: Handle :: h in hs <==> h.index < i && Tagged(marks, h)
      {
        if marks[i] != 0 {
          hs := hs + {Handle(i, marks[i] - 1)};
        }
      }
    }

    /** Marks `h`, forgetting any other generation of its slot. */
    method Insert(h: Handle) returns (added: bool)
      requires Valid()
      modifies this
      ensures Valid()
      ensures added <==> h !in old(Contents())
      ensures Contents() == (set g | g in old(Contents()) && g.index != h.index) + {h}
      ensures !added ==> Contents() == old(Contents())
    {
      if h.index >= |marks| {
        MarkedAppend(marks, h.index + 1 - |marks|);
        HandlesOfGrown(marks, h.index + 1 - |marks|);
        marks := marks + Zeros(h.index + 1 - |marks|);
      }
      hide HandlesOf, Zeros;
      if marks[h.index] == h.generation + 1 {
        assert Tagged(marks, h);
        assert forall g | Tagged(marks, g) && g.index == h.index :: g == h;
        return false;
      }
      HandlesOfUpdate(marks, h);
      MarkedUpdate(marks, h.index, h.generation + 1);
      if marks[h.index] == 0 {
        count := count + 1;
      }
      marks := marks[h.index := h.generation + 1];
      added := true;
    }
  }

  predicate Tagged(marks: seq<nat>, h: Handle) {
    h.index < |marks| && marks[h.index] == h.generation + 1
  }

  /** The handles a tag sequence marks. */
  ghost function HandlesOf(marks: seq<nat>): (hs: set<Handle>)
    ensures forall h :: h in hs <==> Tagged(marks, h)
  {
    var hs := set i | 0 <= i < |marks| && marks[i] != 0 :: Handle(i, marks[i] - 1);
    assert forall h | Tagged(marks, h) :: h == Handle(h.index, marks[h.index] - 1);
    hs
  }

  lemma HandlesOfGrown(marks: seq<nat>, n: nat)
    ensures HandlesOf(marks + Zeros(n)) == HandlesOf(marks)
  {
    assert forall h :: Tagged(marks + Zeros(n), h) <==> Tagged(marks, h);
  }

  lemma HandlesOfUpdate(marks: seq<nat>, h: Handle)
    requires h.index < |marks|
    ensures HandlesOf(marks[h.index := h.generation + 1]) == (set g | g in HandlesOf(marks) && g.index != h.index) + {h}
  {
    var m := marks[h.index := h.generation + 1];
    assert forall g :: Tagged(m, g) <==> (Tagged(marks, g) && g.index != h.index) || g == h;
  }

  function Zeros(n: nat): (z: seq<nat>)
    ensures |z| == n && forall i | 0 <= i < n :: z[i] == 0
  {
    seq(n, _ => 0)
  }

  /** The number of non-zero entries. */
  function Marked(marks: seq<nat>): nat {
    if marks == [] then 0
    else Marked(marks[..|marks| - 1]) + (if marks[|marks| - 1] != 0 then 1 else 0)
  }

  lemma MarkedZeros(n: nat)
    ensures Marked(Zeros(n)) == 0
  {
    if n > 0 {
      MarkedZeros(n - 1);
      assert Zeros(n)[..n - 1] == Zeros(n - 1);
    }
  }

  lemma {:induction false} MarkedAppend(marks: seq<nat>, n: nat)
    ensures Marked(marks + Zeros(n)) == Marked(marks)
  {
    if n == 0 {
      assert marks + Zeros(0) == marks;
    } else {
      MarkedAppend(marks, n - 1);
      assert (marks + Zeros(n))[..|marks| + n - 1] == marks + Zeros(n - 1);
    }
  }

  lemma {:induction false} MarkedUpdate(marks: seq<nat>, i: nat, x: nat)
    requires i < |marks|
    ensures Marked(marks[i := x])
         == Marked(marks) - (if marks[i] != 0 then 1 else 0) + (if x != 0 then 1 else 0)
  {
    var n := |marks| - 1;
    if i == n {
      assert marks[i := x][..n] == marks[..n];
    } else {
      MarkedUpdate(marks[..n], i, x);
      assert marks[i := x][..n] == marks[..n][i := x];
    }
  }

  // ---- The worklist

  /** Every closed set holds `h`, if it is live. */
  ghost predicate MustKeep(s: State, p: Plan, h: Handle) {
    forall k | Closed(s, p, k) && s.IsLive(h) :: h in k
  }

  /** Everything marked is live and must be kept, and what is marked and no longer
      grey has had its edges followed. */
  ghost predicate MarkInv(s: State, p: Plan, marked: set<Handle>, work: seq<Handle>) {
    && (forall h | h in marked :: s.IsLive(h) && MustKeep(s, p, h))
    && (forall h | h in work :: h in marked)
    && (forall h | h in marked && h !in work :: s.IsLive(h) && EdgesIn(s, p, h, marked))
    && NoRepeat(work)
  }

  ghost predicate NoRepeat(work: seq<Handle>) {
    forall j, k | 0 <= j < k < |work| :: work[j] != work[k]
  }

  /** Greying one more object that must be kept. */
  lemma ShadeStep(s: State, p: Plan, marked: set<Handle>, h: Handle, work: seq<Handle>)
    requires MarkInv(s, p, marked, work) && s.IsLive(h) && MustKeep(s, p, h)
    ensures h !in marked ==> MarkInv(s, p, marked + {h}, work + [h])
    // Two live handles of one slot are the same handle, so marking evicts nothing.
    ensures (set g | g in marked && g.index != h.index) + {h} == marked + {h}
  {
    if h !in marked {
      forall g | g in marked + {h} && g !in work + [h] ensures EdgesIn(s, p, g, marked + {h}) {
        assert h in work + [h];
        assert EdgesIn(s, p, g, marked);
      }
    }
  }

  /** Marks `h` grey if it is live and still white. */
  method Shade(heap: Heap, h: Handle, marked: MarkSet, work: seq<Handle>, ghost p: Plan)
      returns (work': seq<Handle>, grew: bool)
    requires marked.Valid() && MarkInv(heap.View(), p, marked.Contents(), work) && MustKeep(heap.View(), p, h)
    modifies marked
    ensures marked.Valid() && MarkInv(heap.View(), p, marked.Contents(), work')
    ensures old(marked.Contents()) <= marked.Contents()
    ensures heap.View().IsLive(h) ==> h in marked.Contents()
    ensures grew <==> marked.Contents() != old(marked.Contents())
    ensures work' == if grew then work + [h] else work
  {
    work', grew := work, false;
    if heap.IsLive(h) {
      ShadeStep(heap.View(), p, marked.Contents(), h, work);
      hide MarkInv, MustKeep;
      grew := marked.Insert(h);
      if grew {
        work' := work + [h];
      }
    }
  }

  /** Follows the edges of `h`, just popped: until the end it still counts as grey. */
  method Follow(heap: Heap, marked: MarkSet, h: Handle, work: seq<Handle>, scan: bool, ghost p: Plan)
      returns (work': seq<Handle>)
    requires p.scan == scan && marked.Valid()
    requires MarkInv(heap.View(), p, marked.Contents(), [h] + work)
    modifies marked
    ensures marked.Valid() && MarkInv(heap.View(), p, marked.Contents(), work')
    ensures old(marked.Contents()) <= marked.Contents()
    ensures marked.Contents() == old(marked.Contents()) ==> work' == work
  {
    ghost var s, m := heap.View(), marked.Contents();
    PoppedIsLive(s, p, m, h, work);
    var edges := EdgesOf(heap.Get(h).value, scan);
    EdgesMustBeKept(s, p, h);
    hide MarkInv, MustKeep, EdgesOf, EdgesIn;
    var shaded := ShadeEach(heap, edges, marked, [h] + work, p);
    work' := shaded[1..];
    assert [h] + work' == shaded;
    EdgesFollowed(s, p, h, marked.Contents());
    PopScanned(s, p, marked.Contents(), h, work');
  }

  lemma PoppedIsLive(s: State, p: Plan, marked: set<Handle>, h: Handle, work: seq<Handle>)
    requires MarkInv(s, p, marked, [h] + work)
    ensures s.IsLive(h) && MustKeep(s, p, h)
  {
    assert h in [h] + work;
  }

  /** Greys each of `edges` that is live and still white. */
  method ShadeEach(heap: Heap, edges: seq<Handle>, marked: MarkSet, work: seq<Handle>, ghost p: Plan)
      returns (work': seq<Handle>)
    requires marked.Valid() && MarkInv(heap.View(), p, marked.Contents(), work)
    requires forall e | e in edges :: MustKeep(heap.View(), p, e)
    modifies marked
    ensures marked.Valid() && MarkInv(heap.View(), p, marked.Contents(), work')
    ensures old(marked.Contents()) <= marked.Contents()
    ensures forall e | e in edges && heap.View().IsLive(e) :: e in marked.Contents()
    ensures work <= work'
    ensures marked.Contents() == old(marked.Contents()) ==> work' == work
  {
    hide MarkInv, MustKeep, MarkSet.Valid, MarkSet.Contents;
    ghost var s, m := heap.View(), marked.Contents();
    work' := work;
    for i := 0 to |edges|
      invariant marked.Valid() && MarkInv(s, p, marked.Contents(), work') && m <= marked.Contents()
      invariant forall e | e in edges[..i] && s.IsLive(e) :: e in marked.Contents()
      invariant work <= work' && (marked.Contents() == m ==> work' == work)
    {
      assert edges[i] in edges;
      assert edges[..i + 1] == edges[..i] + [edges[i]];
      var grew;
      work', grew := Shade(heap, edges[i], marked, work', p);
    }
    assert edges[..|edges|] == edges;
  }

  lemma EdgesMustBeKept(s: State, p: Plan, h: Handle)
    requires s.IsLive(h) && MustKeep(s, p, h)
    ensures forall e | e in EdgesOf(s.At(h), p.scan) :: MustKeep(s, p, e)
  {
    forall e | e in EdgesOf(s.At(h), p.scan) ensures MustKeep(s, p, e) {
      forall k | Closed(s, p, k) && s.IsLive(e) ensures e in k {
        assert EdgesIn(s, p, h, k);
      }
    }
  }

  lemma EdgesFollowed(s: State, p: Plan, h: Handle, marked: set<Handle>)
    requires s.IsLive(h) && forall e | e in EdgesOf(s.At(h), p.scan) && s.IsLive(e) :: e in marked
    ensures EdgesIn(s, p, h, marked)
  {
  }

  lemma PopScanned(s: State, p: Plan, marked: set<Handle>, h: Handle, work: seq<Handle>)
    requires MarkInv(s, p, marked, [h] + work) && s.IsLive(h) && EdgesIn(s, p, h, marked)
    ensures MarkInv(s, p, marked, work)
  {
    assert forall g | g in work :: g in [h] + work;
    assert forall g | g !in work && g != h :: g !in [h] + work;
    assert NoRepeat(work) by {
      forall j, k | 0 <= j < k < |work| ensures work[j] != work[k] {
        assert ([h] + work)[j + 1] != ([h] + work)[k + 1];
      }
    }
  }

  /** Drains the grey list, following each object's edges. */
  method Drain(heap: Heap, marked: MarkSet, work: seq<Handle>, scan: bool, ghost p: Plan)
    requires p.scan == scan
    requires marked.Valid() && MarkInv(heap.View(), p, marked.Contents(), work)
    modifies marked
    ensures marked.Valid() && MarkInv(heap.View(), p, marked.Contents(), [])
    ensures old(marked.Contents()) <= marked.Contents()
  {
    ghost var s, m0 := heap.View(), marked.Contents();
    LiveHandlesAreLive(s);
    var grey := work;
    MarkedAreLive(s, p, m0, grey);
    hide MarkInv;
    while grey != []
      invariant marked.Valid() && MarkInv(s, p, marked.Contents(), grey)
      invariant m0 <= marked.Contents() <= LiveHandles(s)
      decreases |LiveHandles(s)| - |marked.Contents()|, |grey|
    {
      ghost var m := marked.Contents();
      var h := grey[|grey| - 1];
      ReorderWork(s, p, m, grey);
      grey := Follow(heap, marked, h, grey[..|grey| - 1], scan, p);
      MarkedAreLive(s, p, marked.Contents(), grey);
      SubsetSizes(m, marked.Contents(), LiveHandles(s));
    }
  }

  lemma MarkedAreLive(s: State, p: Plan, marked: set<Handle>, work: seq<Handle>)
    requires MarkInv(s, p, marked, work)
    ensures marked <= LiveHandles(s)
  {
    LiveHandlesAreLive(s);
  }

  lemma ReorderWork(s: State, p: Plan, marked: set<Handle>, work: seq<Handle>)
    requires work != [] && MarkInv(s, p, marked, work)
    ensures MarkInv(s, p, marked, [work[|work| - 1]] + work[..|work| - 1])
  {
    var w := [work[|work| - 1]] + work[..|work| - 1];
    assert work == work[..|work| - 1] + [work[|work| - 1]];
    assert forall g :: g in w <==> g in work;
  }

  lemma SubsetSizes(a: set<Handle>, b: set<Handle>, c: set<Handle>)
    requires a <= b <= c
    ensures |a| <= |b| <= |c| && (a != b ==> |a| < |b|)
  {
    assert b == a + (b - a) && c == b + (c - b);
  }

  // ---- The full mark

  /** Greys every live root. */
  method ShadeRoots(heap: Heap, roots: seq<Handle>, marked: MarkSet, ghost p: Plan) returns (work: seq<Handle>)
    requires marked.Valid() && marked.Contents() == {} && p.roots == RootSet(roots)
    modifies marked
    ensures marked.Valid() && MarkInv(heap.View(), p, marked.Contents(), work)
    ensures RootsIn(heap.View(), p, marked.Contents())
  {
    ghost var s := heap.View();
    work := [];
    assert MarkInv(s, p, {}, []);
    hide MarkInv;
    for i := 0 to |roots|
      invariant marked.Valid() && MarkInv(s, p, marked.Contents(), work)
      invariant forall j | 0 <= j < i && s.IsLive(roots[j]) :: roots[j] in marked.Contents()
    {
      assert roots[i] in p.roots;
      assert MustKeep(s, p, roots[i]) by { assert forall k | Closed(s, p, k) :: RootsIn(s, p, k); }
      var grew;
      work, grew := Shade(heap, roots[i], marked, work, p);
    }
  }

  /** `expand`: the values of the entries whose key is marked. */
  method Expand(marked: MarkSet, entries: seq<Entry>) returns (extra: seq<Handle>)
    ensures forall v :: v in extra <==> exists x :: x in entries && x.key in marked.Contents() && x.value == v
  {
    extra := [];
    for i := 0 to |entries|
      invariant forall v :: v in extra <==>
        exists j :: 0 <= j < i && entries[j].key in marked.Contents() && entries[j].value == v
    {
      if marked.Contains(entries[i].key) {
        extra := extra + [entries[i].value];
      }
    }
  }

  /** One round of weak entries: greys the values of live keys. */
  method ShadeValues(heap: Heap, marked: MarkSet, entries: seq<Entry>, ghost p: Plan)
      returns (work: seq<Handle>, grew: bool)
    requires p.entries == entries
    requires marked.Valid() && MarkInv(heap.View(), p, marked.Contents(), [])
    modifies marked
    ensures marked.Valid() && MarkInv(heap.View(), p, marked.Contents(), work)
    ensures old(marked.Contents()) <= marked.Contents()
    ensures grew <==> marked.Contents() != old(marked.Contents())
    ensures !grew ==> work == [] && forall x | x in entries :: EntryIn(heap.View(), x, marked.Contents())
  {
    hide MarkInv, MustKeep, EntryIn;
    ghost var s, m := heap.View(), marked.Contents();
    var extra := Expand(marked, entries);
    ExpandedAreKept(s, p, m, extra);
    work, grew := [], false;
    for i := 0 to |extra|
      invariant marked.Valid() && MarkInv(s, p, marked.Contents(), work)
      invariant m <= marked.Contents() && (grew <==> marked.Contents() != m)
      invariant forall j | 0 <= j < i && s.IsLive(extra[j]) :: extra[j] in marked.Contents()
      invariant !grew ==> work == []
    {
      assert extra[i] in extra;
      var more;
      work, more := Shade(heap, extra[i], marked, work, p);
      grew := grew || more;
    }
    if !grew { ExpandedAreIn(s, p, m, extra); }
  }

  ghost predicate ExpandedTo(p: Plan, m: set<Handle>, extra: seq<Handle>) {
    forall v :: v in extra <==> exists x :: x in p.entries && x.key in m && x.value == v
  }

  lemma ExpandedAreKept(s: State, p: Plan, m: set<Handle>, extra: seq<Handle>)
    requires MarkInv(s, p, m, []) && ExpandedTo(p, m, extra)
    ensures forall v | v in extra :: MustKeep(s, p, v)
  {
    hide MustKeep;
    forall v | v in extra ensures MustKeep(s, p, v) { ValueMustBeKept(s, p, m, v); }
  }

  lemma ExpandedAreIn(s: State, p: Plan, m: set<Handle>, extra: seq<Handle>)
    requires ExpandedTo(p, m, extra) && forall v | v in extra && s.IsLive(v) :: v in m
    ensures forall x | x in p.entries :: EntryIn(s, x, m)
  {
    forall x | x in p.entries ensures EntryIn(s, x, m) {
      if x.key in m { assert x.value in extra; }
    }
  }

  lemma ValueMustBeKept(s: State, p: Plan, m: set<Handle>, v: Handle)
    requires forall h | h in m :: s.IsLive(h) && MustKeep(s, p, h)
    requires exists x :: x in p.entries && x.key in m && x.value == v
    ensures MustKeep(s, p, v)
  {
    var x :| x in p.entries && x.key in m && x.value == v;
    forall k | Closed(s, p, k) && s.IsLive(v) ensures v in k { assert EntryIn(s, x, k); }
  }

  /** Nothing grey, roots and entries satisfied: the marked set is the least closed one. */
  lemma EmptyWorkIsLeast(s: State, p: Plan, m: set<Handle>)
    requires MarkInv(s, p, m, []) && RootsIn(s, p, m) && forall x | x in p.entries :: EntryIn(s, x, m)
    ensures Least(s, p, m)
  {
    forall k | Closed(s, p, k) ensures m <= k {
      forall h | h in m ensures h in k { assert MustKeep(s, p, h); }
    }
  }

  /** The mark phase with its hooks: it ends with exactly the least set that holds the
      live roots and is closed under edges and "key marked implies value marked". */
  method MarkWithEphemerons(heap: Heap, roots: seq<Handle>, entries: seq<Entry>, scan: bool) returns (marked: MarkSet)
    ensures fresh(marked) && marked.Valid()
    ensures Least(heap.View(), FullPlan(roots, entries, scan), marked.Contents())
    ensures marked.Contents() == Kept(heap.View(), FullPlan(roots, entries, scan))
  {
    ghost var s, p := heap.View(), FullPlan(roots, entries, scan);
    LiveHandlesAreLive(s);
    marked := new MarkSet(|heap.slots|);
    var work := ShadeRoots(heap, roots, marked, p);
    hide MarkInv, Least, Closed, EntryIn;
    Drain(heap, marked, work, scan, p);
    while true
      invariant marked.Valid() && MarkInv(s, p, marked.Contents(), [])
      invariant RootsIn(s, p, marked.Contents()) && fresh(marked)
      decreases |LiveHandles(s)| - |marked.Contents()|
    {
      ghost var m := marked.Contents();
      MarkedAreLive(s, p, m, []);
      var grew;
      work, grew := ShadeValues(heap, marked, entries, p);
      if !grew { break; }
      Drain(heap, marked, work, scan, p);
      MarkedAreLive(s, p, marked.Contents(), []);
      SubsetSizes(m, marked.Contents(), LiveHandles(s));
    }
    EmptyWorkIsLeast(s, p, marked.Contents());
    LeastIsUnique(s, p, marked.Contents(), Kept(s, p));
  }
}
