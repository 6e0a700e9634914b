/** Writing out a rope: the pieces still to write, and how few of them ever wait. */
module RopeFill {
  import opened Powers
  import opened Wtf8
  import opened RopeNodes

  /** A node and where in the output its bytes go. */
  datatype Todo = Todo(node: Id, at: nat)

  /** The bytes of `e` belong where it says. */
  ghost predicate Placed(ns: Nodes, e: Todo, total: seq<Byte>)
    requires Linked(ns)
  {
    && e.node < |ns| && e.at + ns[e.node].Len() <= |total|
    && Bytes(ns, e.node) == total[e.at..e.at + ns[e.node].Len()]
  }

  ghost predicate Covers(ns: Nodes, e: Todo, p: nat) {
    e.node < |ns| && e.at <= p < e.at + ns[e.node].Len()
  }

  ghost predicate SomeCovers(ns: Nodes, stack: seq<Todo>, p: nat) {
    exists i: nat :: i < |stack| && Covers(ns, stack[i], p)
  }

  /** The pieces waiting are in place, every byte is written or waiting, and each piece up the
      stack is half the size of the one below it, or less. */
  ghost predicate Filling(ns: Nodes, stack: seq<Todo>, out: seq<Byte>, total: seq<Byte>) {
    && Linked(ns) && |out| == |total|
    && (forall i: nat | i < |stack| :: Placed(ns, stack[i], total))
    && (forall p: nat | p < |total| :: out[p] == total[p] || SomeCovers(ns, stack, p))
    && (forall i: nat | i < |stack| :: Shallow(ns, stack[i], i, |total|))
  }

  ghost predicate Shallow(ns: Nodes, e: Todo, i: nat, n: nat) {
    e.node < |ns| && Pow2(i) * ns[e.node].Len() <= n
  }

  /** The two sides of a concatenation: the longer one waits, the shorter one is next. */
  function Sides(ns: Nodes, e: Todo): (r: (Todo, Todo))
    requires e.node < |ns| && ns[e.node].Concat? && LinkedAt(ns, e.node)
  {
    var left, right := ns[e.node].left, ns[e.node].right;
    var mid := e.at + ns[left].Len();
    if ns[left].Len() <= ns[right].Len() then (Todo(right, mid), Todo(left, e.at))
    else (Todo(left, e.at), Todo(right, mid))
  }

  lemma FillStarts(ns: Nodes, x: Id, out: seq<Byte>)
    requires Linked(ns) && x < |ns| && |out| == ns[x].Len()
    ensures Filling(ns, [Todo(x, 0)], out, Bytes(ns, x))
  {
    hide Bytes;
    var stack := [Todo(x, 0)];
    forall p: nat | p < |out| ensures SomeCovers(ns, stack, p) { assert Covers(ns, stack[0], p); }
    assert Pow2(0) == 1;
  }

  lemma Descend(ns: Nodes, rest: seq<Todo>, e: Todo, out: seq<Byte>, total: seq<Byte>)
    requires Filling(ns, rest + [e], out, total) && e.node < |ns| && ns[e.node].Concat? && LinkedAt(ns, e.node)
    ensures var (big, small) := Sides(ns, e); Filling(ns, rest + [big] + [small], out, total)
  {
    hide Bytes, Shallow, Placed;
    var (big, small) := Sides(ns, e);
    var was, now := rest + [e], rest + [big] + [small];
    assert was[|rest|] == e && now[|rest|] == big && now[|rest| + 1] == small;
    SidesPlaced(ns, e, total);
    SidesShallow(ns, e, |rest|, |total|);
    forall i: nat | i < |now| ensures Placed(ns, now[i], total) && Shallow(ns, now[i], i, |total|) {
      if i < |rest| { assert now[i] == was[i]; }
    }
    forall p: nat | p < |total| ensures out[p] == total[p] || SomeCovers(ns, now, p) {
      if SomeCovers(ns, was, p) {
        var i: nat :| i < |was| && Covers(ns, was[i], p);
        if i < |rest| { assert Covers(ns, now[i], p); }
        else { assert Covers(ns, now[|rest|], p) || Covers(ns, now[|rest| + 1], p); }
      }
    }
  }

  lemma SidesPlaced(ns: Nodes, e: Todo, total: seq<Byte>)
    requires Linked(ns) && Placed(ns, e, total) && ns[e.node].Concat? && LinkedAt(ns, e.node)
    ensures var (big, small) := Sides(ns, e); Placed(ns, big, total) && Placed(ns, small, total)
  {
    var l, r := ns[e.node].left, ns[e.node].right;
    var b := Bytes(ns, e.node);
    var n, m := ns[l].Len(), ns[r].Len();
    assert b == Bytes(ns, l) + Bytes(ns, r) && |b| == n + m;
    assert Bytes(ns, l) == b[0..n] && Bytes(ns, r) == b[n..n + m];
    hide Bytes;
    SliceOfSlice(total, e.at, e.at + |b|, 0, n);
    SliceOfSlice(total, e.at, e.at + |b|, n, n + m);
  }

  lemma SliceOfSlice<T>(s: seq<T>, a: nat, b: nat, i: nat, j: nat)
    requires a <= b <= |s| && i <= j <= b - a
    ensures s[a..b][i..j] == s[a + i..a + j]
  {
    forall k | 0 <= k < j - i ensures s[a..b][i..j][k] == s[a + i..a + j][k] {
      assert s[a..b][i..j][k] == s[a..b][i + k] == s[a + i + k];
    }
  }

  lemma SidesShallow(ns: Nodes, e: Todo, i: nat, n: nat)
    requires e.node < |ns| && Shallow(ns, e, i, n) && ns[e.node].Concat? && LinkedAt(ns, e.node)
    ensures var (big, small) := Sides(ns, e); Shallow(ns, big, i, n) && Shallow(ns, small, i + 1, n)
  {
    var (big, small) := Sides(ns, e);
    var p, b, s := Pow2(i), ns[big.node].Len(), ns[small.node].Len();
    assert 2 * s <= b + s == ns[e.node].Len();
    LessTimes(p, b, b + s);
    LessTimes(p, 2 * s, b + s);
    Twice(p, s);
    hide Pow2;
    assert Pow2(i + 1) == 2 * p by { DoublePow(i); }
  }

  lemma DoublePow(i: nat)
    ensures Pow2(i + 1) == 2 * Pow2(i)
  {
  }

  lemma LessTimes(p: nat, a: nat, b: nat)
    requires a <= b
    ensures p * a <= p * b
  {
  }

  lemma Twice(p: nat, s: nat)
    ensures 2 * p * s == p * (2 * s)
  {
  }

  /** What waits is within the logarithm of the length. */
  lemma FewWait(ns: Nodes, rest: seq<Todo>, e: Todo, out: seq<Byte>, total: seq<Byte>)
    requires Filling(ns, rest + [e], out, total) && e.node < |ns| && ns[e.node].Len() > 0
    ensures Pow2(|rest|) <= |total|
  {
    hide Bytes, Placed;
    assert (rest + [e])[|rest|] == e;
    assert Shallow(ns, e, |rest|, |total|);
    LessTimes(Pow2(|rest|), 1, ns[e.node].Len());
  }

  /** A flat piece copied to its place waits no more. */
  lemma PieceWritten(ns: Nodes, rest: seq<Todo>, e: Todo, out: seq<Byte>, out': seq<Byte>, total: seq<Byte>)
    requires Filling(ns, rest + [e], out, total) && e.node < |ns| && e.at + ns[e.node].Len() <= |out|
    requires out' == out[..e.at] + Bytes(ns, e.node) + out[e.at + ns[e.node].Len()..]
    ensures Filling(ns, rest, out', total)
  {
    hide Bytes, Shallow;
    var was := rest + [e];
    assert was[|rest|] == e && Placed(ns, e, total);
    Spliced(out, e.at, Bytes(ns, e.node), out', total);
    hide Placed;
    forall i: nat | i < |rest| ensures Placed(ns, rest[i], total) && Shallow(ns, rest[i], i, |total|) {
      assert was[i] == rest[i];
    }
    forall p: nat | p < |total| ensures out'[p] == total[p] || SomeCovers(ns, rest, p) {
      if !Covers(ns, e, p) && SomeCovers(ns, was, p) {
        var i: nat :| i < |was| && Covers(ns, was[i], p);
        assert Covers(ns, rest[i], p);
      }
    }
  }

  lemma Spliced(out: seq<Byte>, at: nat, b: seq<Byte>, out': seq<Byte>, total: seq<Byte>)
    requires at + |b| <= |out| == |total| && b == total[at..at + |b|] && out' == out[..at] + b + out[at + |b|..]
    ensures |out'| == |out|
    ensures forall p: nat | p < |total| :: out'[p] == if at <= p < at + |b| then total[p] else out[p]
  {
    forall p: nat | p < |total| ensures out'[p] == if at <= p < at + |b| then total[p] else out[p] {
      if at <= p < at + |b| { assert b[p - at] == total[p]; }
    }
  }

  lemma FillDone(ns: Nodes, out: seq<Byte>, total: seq<Byte>)
    requires Filling(ns, [], out, total)
    ensures out == total
  {
    assert forall p: nat | p < |total| :: !SomeCovers(ns, [], p);
  }

  ghost function TodoWeight(ns: Nodes, stack: seq<Todo>): nat
    requires Linked(ns)
  {
    if stack == [] then 0
    else
      TodoWeight(ns, stack[..|stack| - 1])
      + if stack[|stack| - 1].node < |ns| then Weight(ns, stack[|stack| - 1].node) else 0
  }

  lemma TodoPush(ns: Nodes, stack: seq<Todo>, e: Todo)
    requires Linked(ns) && e.node < |ns|
    ensures TodoWeight(ns, stack + [e]) == TodoWeight(ns, stack) + Weight(ns, e.node) > TodoWeight(ns, stack)
  {
    assert (stack + [e])[..|stack|] == stack;
  }

  lemma TodoDescend(ns: Nodes, rest: seq<Todo>, e: Todo)
    requires Linked(ns) && e.node < |ns| && ns[e.node].Concat?
    ensures LinkedAt(ns, e.node)
    ensures var (big, small) := Sides(ns, e); TodoWeight(ns, rest + [big] + [small]) < TodoWeight(ns, rest + [e])
  {
    assert LinkedAt(ns, e.node);
    var (big, small) := Sides(ns, e);
    TodoPush(ns, rest, e);
    TodoPush(ns, rest, big);
    TodoPush(ns, rest + [big], small);
  }
}
