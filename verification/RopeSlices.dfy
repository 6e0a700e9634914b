/** The pieces of a range of units still to be joined, left to right. */
module RopeSlices {
  import opened Wtf8
  import opened RopeNodes

  /** The units `a` to `b` of a node that has `units` of them. */
  datatype Span = Span(node: Id, units: nat, a: nat, b: nat)

  ghost predicate SpanIn(ns: Nodes, s: Span) {
    Linked(ns) && s.node < |ns| && s.units == |Content(ns, s.node)| && s.a <= s.b <= s.units
  }

  ghost predicate SpansIn(ns: Nodes, stack: seq<Span>) {
    forall i | 0 <= i < |stack| :: SpanIn(ns, stack[i])
  }

  ghost function SpanUnits(ns: Nodes, s: Span): seq<Unit>
    requires SpanIn(ns, s)
  {
    Content(ns, s.node)[s.a..s.b]
  }

  /** The top of the stack comes first. */
  ghost function AllUnits(ns: Nodes, stack: seq<Span>): seq<Unit>
    requires SpansIn(ns, stack)
  {
    if stack == [] then [] else SpanUnits(ns, stack[|stack| - 1]) + AllUnits(ns, stack[..|stack| - 1])
  }

  ghost function SpansWeight(ns: Nodes, stack: seq<Span>): nat
    requires Linked(ns) && SpansIn(ns, stack)
  {
    if stack == [] then 0 else Weight(ns, stack[|stack| - 1].node) + SpansWeight(ns, stack[..|stack| - 1])
  }

  lemma SpanPush(ns: Nodes, stack: seq<Span>, s: Span)
    requires Linked(ns) && SpansIn(ns, stack) && SpanIn(ns, s)
    ensures SpansIn(ns, stack + [s])
    ensures AllUnits(ns, stack + [s]) == SpanUnits(ns, s) + AllUnits(ns, stack)
    ensures SpansWeight(ns, stack + [s]) == Weight(ns, s.node) + SpansWeight(ns, stack)
  {
    assert (stack + [s])[..|stack|] == stack;
  }

  lemma SpanKept(ns: Nodes, ms: Nodes, s: Span)
    requires Linked(ms) && Kept(ns, ms) && SpanIn(ns, s)
    ensures SpanIn(ms, s) && SpanUnits(ms, s) == SpanUnits(ns, s)
  {
    BytesKept(ns, ms, s.node);
  }

  lemma {:induction false} SpansKept(ns: Nodes, ms: Nodes, stack: seq<Span>)
    requires Linked(ns) && Linked(ms) && Kept(ns, ms) && SpansIn(ns, stack)
    ensures SpansIn(ms, stack) && AllUnits(ms, stack) == AllUnits(ns, stack)
    ensures SpansWeight(ms, stack) == SpansWeight(ns, stack)
  {
    hide SpanIn, SpanUnits, Weight;
    forall i | 0 <= i < |stack| ensures SpanIn(ms, stack[i]) { SpanKept(ns, ms, stack[i]); }
    if stack != [] {
      SpansKept(ns, ms, stack[..|stack| - 1]);
      SpanKept(ns, ms, stack[|stack| - 1]);
      SpanNode(ns, stack[|stack| - 1]);
      WeightKept(ns, ms, stack[|stack| - 1].node);
    }
  }

  lemma SpanNode(ns: Nodes, s: Span)
    requires SpanIn(ns, s)
    ensures s.node < |ns|
  {
  }

  function Minus(a: nat, b: nat): nat { if a >= b then a - b else 0 }

  function Least(a: nat, b: nat): nat { if a <= b then a else b }

  /** The parts of a range on each side of a concatenation. */
  lemma SpanSplits(ns: Nodes, s: Span, lu: nat, ru: nat)
    requires Valid(ns) && SpanIn(ns, s) && ns[s.node].Concat? && LinkedAt(ns, s.node)
    requires lu == |Content(ns, ns[s.node].left)| && ru == |Content(ns, ns[s.node].right)|
    ensures lu + ru == s.units
    ensures s.b <= lu ==>
      var l := Span(ns[s.node].left, lu, s.a, s.b); SpanIn(ns, l) && SpanUnits(ns, l) == SpanUnits(ns, s)
    ensures s.a >= lu ==>
      var r := Span(ns[s.node].right, ru, s.a - lu, s.b - lu); SpanIn(ns, r) && SpanUnits(ns, r) == SpanUnits(ns, s)
    ensures s.a < lu < s.b ==>
      var l, r := Span(ns[s.node].left, lu, s.a, lu), Span(ns[s.node].right, ru, 0, s.b - lu);
      SpanIn(ns, l) && SpanIn(ns, r) && SpanUnits(ns, s) == SpanUnits(ns, l) + SpanUnits(ns, r)
  {
    ConcatContent(ns, s.node);
    var l, r := Content(ns, ns[s.node].left), Content(ns, ns[s.node].right);
    SliceOfSum(l, r, s.a, s.b);
  }

  lemma SliceOfSum<T>(l: seq<T>, r: seq<T>, a: nat, b: nat)
    requires a <= b <= |l| + |r|
    ensures b <= |l| ==> (l + r)[a..b] == l[a..b]
    ensures a >= |l| ==> (l + r)[a..b] == r[a - |l|..b - |l|]
    ensures a < |l| < b ==> (l + r)[a..b] == l[a..] + r[..b - |l|]
  {
  }
}
