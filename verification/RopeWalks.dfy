/** How far the walks down a tree go, and why joining what they find never makes a string too
    long: what every slice takes up is at most what the whole does. */
module RopeWalks {
  import opened Wrappers
  import opened Wtf8
  import opened RopeNodes
  import opened RopeSlices

  // ---- Bytes

  /** The bytes units take, stored canonically. */
  ghost function Size(us: seq<Unit>): nat { |EncodeAll(FromUnits(us))| }

  ghost predicate PairStarts(us: seq<Unit>) {
    |us| > 1 && IsHigh(us[0]) && IsLow(us[1])
  }

  lemma SizeStep(us: seq<Unit>)
    requires us != []
    ensures Size(us) == if PairStarts(us) then 4 + Size(us[2..]) else |Encode(us[0])| + Size(us[1..])
    ensures IsHigh(us[0]) || IsLow(us[0]) ==> |Encode(us[0])| == 3
  {
    if PairStarts(us) {
      EncodeWidth(Astral(us[0], us[1]));
      assert FromUnits(us)[1..] == FromUnits(us[2..]);
    } else {
      assert FromUnits(us)[1..] == FromUnits(us[1..]);
    }
  }

  /** A surrogate pair with one half on each side. */
  ghost predicate SplitPair(u: seq<Unit>, v: seq<Unit>) {
    u != [] && v != [] && IsHigh(u[|u| - 1]) && IsLow(v[0])
  }

  /** Joining adds up, two bytes fewer where it makes a pair. */
  lemma {:induction false} Seam(u: seq<Unit>, v: seq<Unit>)
    ensures Size(u + v) + (if SplitPair(u, v) then 2 else 0) == Size(u) + Size(v)
    ensures Size(u) <= Size(u + v) && Size(v) <= Size(u + v)
  {
    hide Size;
    if u == [] {
      assert u + v == v;
      NoSize();
    } else {
      var w := u + v;
      SizeStep(u);
      SizeStep(w);
      if PairStarts(u) {
        Seam(u[2..], v);
        assert w[2..] == u[2..] + v;
      } else if |u| == 1 {
        assert u[1..] == [] && w[1..] == v && (v != [] ==> w[2..] == v[1..]);
        NoSize();
        if v != [] { SizeStep(v); }
      } else {
        Seam(u[1..], v);
        assert w[1..] == u[1..] + v && u[1..][|u| - 2] == u[|u| - 1];
      }
    }
  }

  lemma NoSize()
    ensures Size([]) == 0
  {
  }

  /** No part takes more bytes than the whole. */
  lemma SliceSize(us: seq<Unit>, a: nat, b: nat)
    requires a <= b <= |us|
    ensures Size(us[a..b]) <= Size(us)
  {
    hide Size;
    Seam(us[..a], us[a..]);
    Seam(us[a..b], us[b..]);
    assert us == us[..a] + us[a..] && us[a..] == us[a..b] + us[b..];
  }

  /** A node takes the bytes its units do. */
  lemma NodeSize(ns: Nodes, x: Id)
    requires Valid(ns) && x < |ns|
    ensures ns[x].Len() == Size(Content(ns, x)) <= MAX_STRING_LEN
  {
    assert SoundAt(ns, x) && LinkedAt(ns, x);
    FromUnitsOfUnits(Text(Bytes(ns, x)));
  }

  /** The parts of a range on both sides of a node take what the range takes. */
  lemma SidesSize(ns: Nodes, s: Span, lu: nat, ru: nat)
    requires Valid(ns) && SpanIn(ns, s) && ns[s.node].Concat? && LinkedAt(ns, s.node)
    requires lu == |Content(ns, ns[s.node].left)| && ru == |Content(ns, ns[s.node].right)| && s.a < lu < s.b
    ensures var l, r := Span(ns[s.node].left, lu, s.a, lu), Span(ns[s.node].right, ru, 0, s.b - lu);
      SpanIn(ns, l) && SpanIn(ns, r) && Size(SpanUnits(ns, s)) == Size(SpanUnits(ns, l)) + Size(SpanUnits(ns, r))
  {
    hide Content, Size;
    SpanSplits(ns, s, lu, ru);
    var l, r := ns[s.node].left, ns[s.node].right;
    ConcatContent(ns, s.node);
    NodeSize(ns, s.node);
    NodeSize(ns, l);
    NodeSize(ns, r);
    var u, v := Content(ns, l), Content(ns, r);
    Seam(u, v);
    var p, q := u[s.a..lu], v[0..s.b - lu];
    Seam(p, q);
    assert SplitPair(p, q) ==> SplitPair(u, v);
  }

  // ---- Steps

  /** The nodes that joining a range enters: those it covers in part. */
  ghost function JoinSteps(ns: Nodes, x: Id, a: nat, b: nat): nat
    requires Linked(ns) && x < |ns|
    decreases x
  {
    assert LinkedAt(ns, x);
    if !ns[x].Concat? || (a == 0 && b == |Content(ns, x)|) then 0
    else
      var lu := |Content(ns, ns[x].left)|;
      1 + (if a < lu then JoinSteps(ns, ns[x].left, a, Least(b, lu)) else 0)
      + (if b > lu then JoinSteps(ns, ns[x].right, Minus(a, lu), b - lu) else 0)
  }

  /** The nodes a slice enters: those on the way to the last that holds the range, and then
      those that joining it does. */
  ghost function SliceSteps(ns: Nodes, x: Id, a: nat, b: nat): nat
    requires Linked(ns) && x < |ns|
    decreases x
  {
    assert LinkedAt(ns, x);
    if !ns[x].Concat? then 0
    else
      var lu := |Content(ns, ns[x].left)|;
      1 + if b <= lu then SliceSteps(ns, ns[x].left, a, b)
          else if a >= lu then SliceSteps(ns, ns[x].right, a - lu, b - lu)
          else JoinSteps(ns, x, a, b)
  }

  lemma StepsKept(ns: Nodes, ms: Nodes, x: Id, a: nat, b: nat)
    requires Linked(ns) && Linked(ms) && Kept(ns, ms) && x < |ns|
    ensures JoinSteps(ms, x, a, b) == JoinSteps(ns, x, a, b) && SliceSteps(ms, x, a, b) == SliceSteps(ns, x, a, b)
  {
    JoinStepsKept(ns, ms, x, a, b);
    SliceStepsKept(ns, ms, x, a, b);
  }

  lemma SidesKept(ns: Nodes, ms: Nodes, x: Id)
    requires Linked(ns) && Linked(ms) && Kept(ns, ms) && x < |ns|
    ensures LinkedAt(ns, x) && LinkedAt(ms, x) && ms[x].Concat? == ns[x].Concat? && Content(ms, x) == Content(ns, x)
    ensures ns[x].Concat? ==>
      ms[x].left == ns[x].left < x && ms[x].right == ns[x].right < x
      && Content(ms, ns[x].left) == Content(ns, ns[x].left)
  {
    assert LinkedAt(ns, x) && LinkedAt(ms, x) && ns[x].With(None) == ms[x].With(None);
    BytesKept(ns, ms, x);
    if ns[x].Concat? { BytesKept(ns, ms, ns[x].left); }
  }

  lemma {:induction false} JoinStepsKept(ns: Nodes, ms: Nodes, x: Id, a: nat, b: nat)
    requires Linked(ns) && Linked(ms) && Kept(ns, ms) && x < |ns|
    ensures JoinSteps(ms, x, a, b) == JoinSteps(ns, x, a, b)
    decreases x
  {
    hide Content, LinkedAt;
    SidesKept(ns, ms, x);
    if ns[x].Concat? {
      var lu := |Content(ns, ns[x].left)|;
      JoinStepsKept(ns, ms, ns[x].left, a, Least(b, lu));
      if b > lu { JoinStepsKept(ns, ms, ns[x].right, Minus(a, lu), b - lu); }
    }
  }

  lemma {:induction false} SliceStepsKept(ns: Nodes, ms: Nodes, x: Id, a: nat, b: nat)
    requires Linked(ns) && Linked(ms) && Kept(ns, ms) && x < |ns|
    ensures SliceSteps(ms, x, a, b) == SliceSteps(ns, x, a, b)
    decreases x
  {
    hide Content, LinkedAt, JoinSteps;
    SidesKept(ns, ms, x);
    if ns[x].Concat? {
      var lu := |Content(ns, ns[x].left)|;
      JoinStepsKept(ns, ms, x, a, b);
      if b <= lu {
        SliceStepsKept(ns, ms, ns[x].left, a, b);
      } else if a >= lu {
        SliceStepsKept(ns, ms, ns[x].right, a - lu, b - lu);
      }
    }
  }

  // ---- Of a stack of ranges

  ghost function SpansSteps(ns: Nodes, stack: seq<Span>): nat
    requires SpansIn(ns, stack)
  {
    if stack == [] then 0
    else
      var s := stack[|stack| - 1];
      JoinSteps(ns, s.node, s.a, s.b) + SpansSteps(ns, stack[..|stack| - 1])
  }

  ghost function SpansSize(ns: Nodes, stack: seq<Span>): nat
    requires SpansIn(ns, stack)
  {
    if stack == [] then 0 else Size(SpanUnits(ns, stack[|stack| - 1])) + SpansSize(ns, stack[..|stack| - 1])
  }

  lemma TallyPush(ns: Nodes, stack: seq<Span>, s: Span)
    requires SpansIn(ns, stack) && SpanIn(ns, s)
    ensures SpansIn(ns, stack + [s])
    ensures SpansSteps(ns, stack + [s]) == JoinSteps(ns, s.node, s.a, s.b) + SpansSteps(ns, stack)
    ensures SpansSize(ns, stack + [s]) == Size(SpanUnits(ns, s)) + SpansSize(ns, stack)
  {
    hide Size, SpanUnits, JoinSteps;
    assert (stack + [s])[..|stack|] == stack;
  }

  lemma {:induction false} TallyKept(ns: Nodes, ms: Nodes, stack: seq<Span>)
    requires Linked(ns) && Linked(ms) && Kept(ns, ms) && SpansIn(ns, stack) && SpansIn(ms, stack)
    ensures SpansSteps(ms, stack) == SpansSteps(ns, stack) && SpansSize(ms, stack) == SpansSize(ns, stack)
  {
    hide SpanUnits, JoinSteps, Size;
    if stack != [] {
      var s := stack[|stack| - 1];
      TallyKept(ns, ms, stack[..|stack| - 1]);
      SpanKept(ns, ms, s);
      SpanNode(ns, s);
      StepsKept(ns, ms, s.node, s.a, s.b);
    }
  }

  // ---- To one unit

  /** Where the walk to the `i`-th unit ends: the flat piece, after how many nodes, and which
      of its units. */
  datatype Place = Place(leaf: Id, steps: nat, at: nat)

  ghost function PlaceOf(ns: Nodes, x: Id, i: nat): (p: Place)
    requires Linked(ns) && x < |ns|
    ensures p.leaf < |ns| && !ns[p.leaf].Concat?
    decreases x
  {
    assert LinkedAt(ns, x);
    if !ns[x].Concat? then Place(x, 0, i)
    else
      var lu := |Content(ns, ns[x].left)|;
      var p := if i < lu then PlaceOf(ns, ns[x].left, i) else PlaceOf(ns, ns[x].right, i - lu);
      p.(steps := p.steps + 1)
  }

  lemma {:induction false} PlaceKept(ns: Nodes, ms: Nodes, x: Id, i: nat)
    requires Linked(ns) && Linked(ms) && Kept(ns, ms) && x < |ns|
    ensures PlaceOf(ms, x, i) == PlaceOf(ns, x, i)
    decreases x
  {
    assert LinkedAt(ns, x) && LinkedAt(ms, x) && ns[x].With(None) == ms[x].With(None);
    if ns[x].Concat? {
      BytesKept(ns, ms, ns[x].left);
      var lu := |Content(ns, ns[x].left)|;
      if i < lu { PlaceKept(ns, ms, ns[x].left, i); } else { PlaceKept(ns, ms, ns[x].right, i - lu); }
    }
  }

  // ---- Limits a caller can see

  function Max(a: nat, b: nat): nat { if a >= b then a else b }

  /** The longest way down from `x` to a flat piece, in nodes. */
  ghost function Height(ns: Nodes, x: Id): nat
    requires Linked(ns) && x < |ns|
    decreases x
  {
    assert LinkedAt(ns, x);
    if ns[x].Concat? then 1 + Max(Height(ns, ns[x].left), Height(ns, ns[x].right)) else 0
  }

  lemma {:induction false} PlaceInHeight(ns: Nodes, x: Id, i: nat)
    requires Linked(ns) && x < |ns|
    ensures PlaceOf(ns, x, i).steps <= Height(ns, x)
    decreases x
  {
    assert LinkedAt(ns, x);
    if ns[x].Concat? {
      var lu := |Content(ns, ns[x].left)|;
      if i < lu { PlaceInHeight(ns, ns[x].left, i); } else { PlaceInHeight(ns, ns[x].right, i - lu); }
    }
  }

  /** Some unit is as far down as any. */
  lemma {:induction false} DeepestUnit(ns: Nodes, x: Id) returns (i: nat)
    requires Valid(ns) && x < |ns| && ns[x].Len() > 0
    ensures i < |Content(ns, x)| && PlaceOf(ns, x, i).steps == Height(ns, x)
    decreases x
  {
    hide Content;
    ContentSize(ns, x);
    i := 0;
    if ns[x].Concat? {
      ConcatContent(ns, x);
      var l, r := ns[x].left, ns[x].right;
      if Height(ns, l) >= Height(ns, r) {
        i := DeepestUnit(ns, l);
      } else {
        i := DeepestUnit(ns, r);
        i := |Content(ns, l)| + i;
      }
    }
  }

  /** A range from the start, or to the end, enters one node a level. */
  lemma {:induction false} PrefixInHeight(ns: Nodes, x: Id, b: nat)
    requires Valid(ns) && x < |ns| && b <= |Content(ns, x)|
    ensures JoinSteps(ns, x, 0, b) <= Height(ns, x)
    decreases x
  {
    hide Content;
    if ns[x].Concat? {
      ConcatContent(ns, x);
      var l, r := ns[x].left, ns[x].right;
      var lu := |Content(ns, l)|;
      if b <= lu {
        PrefixInHeight(ns, l, b);
      } else {
        WholeTakesNone(ns, l);
        PrefixInHeight(ns, r, b - lu);
      }
    }
  }

  lemma {:induction false} SuffixInHeight(ns: Nodes, x: Id, a: nat)
    requires Valid(ns) && x < |ns| && a <= |Content(ns, x)|
    ensures JoinSteps(ns, x, a, |Content(ns, x)|) <= Height(ns, x)
    decreases x
  {
    hide Content;
    if ns[x].Concat? {
      ConcatContent(ns, x);
      var l, r := ns[x].left, ns[x].right;
      var lu := |Content(ns, l)|;
      if a < lu {
        SuffixInHeight(ns, l, a);
        WholeTakesNone(ns, r);
      } else {
        SuffixInHeight(ns, r, a - lu);
      }
    }
  }

  lemma WholeTakesNone(ns: Nodes, x: Id)
    requires Linked(ns) && x < |ns|
    ensures JoinSteps(ns, x, 0, |Content(ns, x)|) == 0
  {
  }

  /** Any range enters two nodes a level at most. */
  lemma {:induction false} JoinInHeight(ns: Nodes, x: Id, a: nat, b: nat)
    requires Valid(ns) && x < |ns| && a <= b <= |Content(ns, x)|
    ensures JoinSteps(ns, x, a, b) <= (if ns[x].Concat? then 2 * Height(ns, x) - 1 else 0)
    decreases x
  {
    hide Content;
    if ns[x].Concat? {
      ConcatContent(ns, x);
      var l, r := ns[x].left, ns[x].right;
      var lu := |Content(ns, l)|;
      if a < lu < b {
        SuffixInHeight(ns, l, a);
        PrefixInHeight(ns, r, b - lu);
      } else if a < lu {
        JoinInHeight(ns, l, a, b);
      } else if b > lu {
        JoinInHeight(ns, r, a - lu, b - lu);
      }
    }
  }

  lemma {:induction false} SliceInHeight(ns: Nodes, x: Id, a: nat, b: nat)
    requires Valid(ns) && x < |ns| && a < b <= |Content(ns, x)|
    ensures SliceSteps(ns, x, a, b) <= 2 * Height(ns, x)
    decreases x
  {
    hide Content, JoinSteps;
    if ns[x].Concat? {
      ConcatContent(ns, x);
      var l, r := ns[x].left, ns[x].right;
      var lu := |Content(ns, l)|;
      if b <= lu {
        SliceInHeight(ns, l, a, b);
      } else if a >= lu {
        SliceInHeight(ns, r, a - lu, b - lu);
      } else {
        JoinInHeight(ns, x, a, b);
      }
    }
  }
}
