/** What a collection must keep alive: the least set of live handles holding the
    roots and closed under edges and weak-key entries. */
module Reachability {
  import opened HeapTypes
  import opened HeapState

  /** A weak-key (ephemeron) entry: a live key keeps the value alive. */
  datatype Entry = Entry(key: Handle, value: Handle)

  /** What a mark phase follows: its roots, its weak entries, and whether the `scan`
      hook's edges count. */
  datatype Plan = Plan(roots: set<Handle>, entries: seq<Entry>, scan: bool)

  function EdgesOf(v: Value, scan: bool): (es: seq<Handle>)
    ensures forall e :: e in es <==> e in v.Trace() || (scan && e in v.extra)
  {
    if scan then v.Edges() else v.Trace()
  }

  ghost function LiveHandles(s: State): set<Handle> {
    set i | 0 <= i < |s.slots| && s.slots[i].Live() :: s.HandleAt(i)
  }

  lemma LiveHandlesAreLive(s: State)
    ensures forall h :: h in LiveHandles(s) <==> s.IsLive(h)
  {
    forall h | s.IsLive(h) ensures h in LiveHandles(s) { assert h == s.HandleAt(h.index); }
  }

  ghost predicate RootsIn(s: State, p: Plan, k: set<Handle>) {
    forall h | h in p.roots && s.IsLive(h) :: h in k
  }

  ghost predicate EdgesIn(s: State, p: Plan, h: Handle, k: set<Handle>)
    requires s.IsLive(h)
  {
    forall e | e in EdgesOf(s.At(h), p.scan) && s.IsLive(e) :: e in k
  }

  ghost predicate EntryIn(s: State, x: Entry, k: set<Handle>) {
    x.key in k && s.IsLive(x.value) ==> x.value in k
  }

  /** `k` holds the live roots and is closed under edges and entries, to live objects. */
  ghost predicate Closed(s: State, p: Plan, k: set<Handle>) {
    && RootsIn(s, p, k)
    && (forall h | h in k && s.IsLive(h) :: EdgesIn(s, p, h, k))
    && (forall x | x in p.entries :: EntryIn(s, x, k))
  }

  ghost predicate Least(s: State, p: Plan, k: set<Handle>) {
    && (forall h | h in k :: s.IsLive(h))
    && Closed(s, p, k)
    && (forall k' | Closed(s, p, k') :: k <= k')
  }

  lemma LeastIsUnique(s: State, p: Plan, k: set<Handle>, k': set<Handle>)
    requires Least(s, p, k) && Least(s, p, k')
    ensures k == k'
  {
  }

  /** The meet of all closed sets. */
  ghost function Kept(s: State, p: Plan): (k: set<Handle>)
    ensures Least(s, p, k)
  {
    LiveHandlesAreLive(s);
    var k := set h | h in LiveHandles(s) && InEveryClosed(s, p, h);
    MeetIsLeast(s, p, k);
    k
  }

  ghost predicate InEveryClosed(s: State, p: Plan, h: Handle) {
    forall k | Closed(s, p, k) :: h in k
  }

  lemma MeetIsLeast(s: State, p: Plan, k: set<Handle>)
    requires k == set h | h in LiveHandles(s) && InEveryClosed(s, p, h)
    ensures Least(s, p, k)
  {
    LiveHandlesAreLive(s);
    forall h | h in p.roots && s.IsLive(h) ensures h in k {
      assert forall k' | Closed(s, p, k') :: RootsIn(s, p, k');
    }
    forall h | h in k && s.IsLive(h) ensures EdgesIn(s, p, h, k) {
      forall e | e in EdgesOf(s.At(h), p.scan) && s.IsLive(e) ensures e in k {
        forall k' | Closed(s, p, k') ensures e in k' {
          assert EdgesIn(s, p, h, k');
        }
      }
    }
    forall x | x in p.entries ensures EntryIn(s, x, k) {
      if x.key in k && s.IsLive(x.value) {
        forall k' | Closed(s, p, k') ensures x.value in k' {
          assert EntryIn(s, x, k');
        }
      }
    }
    forall k' | Closed(s, p, k') ensures k <= k' {
    }
  }

  // ---- Paths

  /** Consecutive handles of `path` are live and joined by edges. */
  ghost predicate IsPath(s: State, scan: bool, path: seq<Handle>) {
    && path != []
    && (forall j | 0 <= j < |path| :: s.IsLive(path[j]))
    && (forall j | 0 < j < |path| :: path[j] in EdgesOf(s.At(path[j - 1]), scan))
  }

  ghost predicate Reachable(s: State, roots: set<Handle>, scan: bool, h: Handle) {
    exists path :: IsPath(s, scan, path) && path[0] in roots && path[|path| - 1] == h
  }

  /** Without weak entries, what is kept is exactly what some path reaches. */
  lemma KeptIsReachable(s: State, p: Plan, h: Handle)
    requires p.entries == []
    ensures h in Kept(s, p) <==> Reachable(s, p.roots, p.scan, h)
  {
    hide Reachable;
    if Reachable(s, p.roots, p.scan, h) {
      ReachableIsKept(s, p, h);
    }
    var r := set g | g in LiveHandles(s) && Reachable(s, p.roots, p.scan, g);
    ReachedIsClosed(s, p, r);
    assert Kept(s, p) <= r;
  }

  lemma ReachedIsClosed(s: State, p: Plan, r: set<Handle>)
    requires p.entries == [] && r == set g | g in LiveHandles(s) && Reachable(s, p.roots, p.scan, g)
    ensures Closed(s, p, r)
  {
    hide Reachable;
    LiveHandlesAreLive(s);
    forall h | h in p.roots && s.IsLive(h) ensures h in r { RootIsReached(s, p, h); }
    forall h | h in r && s.IsLive(h) ensures EdgesIn(s, p, h, r) {
      forall e | e in EdgesOf(s.At(h), p.scan) && s.IsLive(e) ensures e in r {
        OneEdgeFurther(s, p.roots, p.scan, h, e);
      }
    }
  }

  lemma RootIsReached(s: State, p: Plan, h: Handle)
    requires h in p.roots && s.IsLive(h)
    ensures Reachable(s, p.roots, p.scan, h)
  {
    var path := [h];
    assert IsPath(s, p.scan, path) && path[|path| - 1] == h;
  }

  lemma OneEdgeFurther(s: State, roots: set<Handle>, scan: bool, h: Handle, e: Handle)
    requires Reachable(s, roots, scan, h) && s.IsLive(h) && s.IsLive(e) && e in EdgesOf(s.At(h), scan)
    ensures Reachable(s, roots, scan, e)
  {
    hide State.IsLive, EdgesOf;
    var path :| IsPath(s, scan, path) && path[0] in roots && path[|path| - 1] == h;
    var longer := path + [e];
    forall j | 0 <= j < |longer| ensures s.IsLive(longer[j]) {
      if j < |path| { assert longer[j] == path[j]; }
    }
    forall j | 0 < j < |longer| ensures longer[j] in EdgesOf(s.At(longer[j - 1]), scan) {
      assert longer[j - 1] == path[j - 1] && (j < |path| ==> longer[j] == path[j]);
    }
    assert IsPath(s, scan, longer) && longer[0] in roots && longer[|longer| - 1] == e;
  }

  /** Whatever a path reaches from a live root is kept, weak entries or not. */
  lemma ReachableIsKept(s: State, p: Plan, h: Handle)
    requires Reachable(s, p.roots, p.scan, h)
    ensures h in Kept(s, p)
  {
    var path :| IsPath(s, p.scan, path) && path[0] in p.roots && path[|path| - 1] == h;
    PathStays(s, p, path, Kept(s, p), |path| - 1);
  }

  lemma {:induction false} PathStays(s: State, p: Plan, path: seq<Handle>, k: set<Handle>, j: nat)
    requires IsPath(s, p.scan, path) && path[0] in p.roots && Closed(s, p, k) && j < |path|
    ensures path[j] in k
  {
    if j > 0 {
      PathStays(s, p, path, k, j - 1);
      assert EdgesIn(s, p, path[j - 1], k);
    }
  }

  /** No entry keeps its own key alive: dropping the entries whose key is not kept
      changes nothing. */
  lemma DeadKeysAddNothing(s: State, p: Plan, alive: seq<Entry>)
    requires forall x :: x in alive <==> x in p.entries && x.key in Kept(s, p)
    ensures Kept(s, p.(entries := alive)) == Kept(s, p)
  {
    var k, k0 := Kept(s, p), Kept(s, p.(entries := alive));
    var q := p.(entries := alive);
    forall h | h in k && s.IsLive(h) ensures EdgesIn(s, q, h, k) { assert EdgesIn(s, p, h, k); }
    assert Closed(s, q, k);
    assert k0 <= k;
    forall h | h in k0 && s.IsLive(h) ensures EdgesIn(s, p, h, k0) { assert EdgesIn(s, q, h, k0); }
    forall x | x in p.entries ensures EntryIn(s, x, k0) {
      if x.key in k0 { assert x in alive; assert EntryIn(s, x, k0); }
    }
    assert Closed(s, p, k0);
  }
}
