/** Ropes: shared, immutable string nodes, each older than those built over it. */
module RopeNodes {
  import opened Wrappers
  import opened Wtf8
  import opened Wtf8Ranges

  type Id = nat

  const SMALL_CAP: nat := 37
  const MAX_STRING_LEN: nat := 0x4000_0000

  /** `memo` is the UTF-16 length, once somebody asked. */
  datatype Node =
    | Small(bytes: seq<Byte>, memo: Option<nat>)
    | Leaf(bytes: seq<Byte>, memo: Option<nat>)
    | Slice(base: Id, start: nat, len: nat, memo: Option<nat>)
    | Concat(left: Id, right: Id, len: nat, memo: Option<nat>)
  {
    /** `len`, in bytes. */
    function Len(): nat {
      match this
      case Small(bytes, _) => |bytes|
      case Leaf(bytes, _) => |bytes|
      case Slice(_, _, len, _) => len
      case Concat(_, _, len, _) => len
    }

    /** With `m` remembered. */
    function With(m: Option<nat>): Node {
      match this
      case Small(bytes, _) => Small(bytes, m)
      case Leaf(bytes, _) => Leaf(bytes, m)
      case Slice(base, start, len, _) => Slice(base, start, len, m)
      case Concat(left, right, len, _) => Concat(left, right, len, m)
    }
  }

  type Nodes = seq<Node>

  ghost predicate LinkedAt(ns: Nodes, x: Id)
    requires x < |ns|
  {
    ns[x].Len() <= MAX_STRING_LEN &&
    match ns[x]
    case Small(bytes, _) => |bytes| <= SMALL_CAP
    case Leaf(_, _) => true
    case Slice(base, start, len, _) => base < x && ns[base].Leaf? && start + len <= |ns[base].bytes|
    case Concat(left, right, len, _) =>
      left < x && right < x && ns[left].Len() > 0 && ns[right].Len() > 0 && len == ns[left].Len() + ns[right].Len()
  }

  ghost predicate Linked(ns: Nodes) {
    forall x: nat {:trigger LinkedAt(ns, x)} | x < |ns| :: LinkedAt(ns, x)
  }

  /** The bytes of the whole string: the flat string a rope stands for. */
  ghost function Bytes(ns: Nodes, x: Id): (b: seq<Byte>)
    requires Linked(ns) && x < |ns|
    ensures |b| == ns[x].Len()
    decreases x
  {
    assert LinkedAt(ns, x);
    match ns[x]
    case Small(bytes, _) => bytes
    case Leaf(bytes, _) => bytes
    case Slice(base, start, len, _) => ns[base].bytes[start..start + len]
    case Concat(left, right, _, _) => Bytes(ns, left) + Bytes(ns, right)
  }

  ghost function Content(ns: Nodes, x: Id): seq<Unit>
    requires Linked(ns) && x < |ns|
  {
    UnitsIn(Bytes(ns, x))
  }

  /** Canonical, and what is remembered of the length is right. */
  ghost predicate SoundAt(ns: Nodes, x: Id)
    requires Linked(ns) && x < |ns|
  {
    Canonical(Bytes(ns, x)) && (ns[x].memo.Some? ==> ns[x].memo.value == |Content(ns, x)|)
  }

  ghost predicate Valid(ns: Nodes) {
    Linked(ns) && forall x: nat {:trigger SoundAt(ns, x)} | x < |ns| :: SoundAt(ns, x)
  }

  /** Nodes are added and lengths remembered; nothing else happens to them. */
  ghost predicate Kept(ns: Nodes, ms: Nodes) {
    |ns| <= |ms| && forall x | 0 <= x < |ns| :: ns[x].With(None) == ms[x].With(None)
  }

  lemma {:induction false} BytesKept(ns: Nodes, ms: Nodes, x: Id)
    requires Linked(ns) && Linked(ms) && Kept(ns, ms) && x < |ns|
    ensures Bytes(ms, x) == Bytes(ns, x)
    decreases x
  {
    assert LinkedAt(ns, x) && LinkedAt(ms, x);
    match ns[x]
    case Concat(left, right, _, _) =>
      BytesKept(ns, ms, left);
      BytesKept(ns, ms, right);
    case _ =>
  }

  lemma KeptTransitive(a: Nodes, b: Nodes, c: Nodes)
    requires Kept(a, b) && Kept(b, c)
    ensures Kept(a, c)
  {
  }

  lemma PushLinked(ns: Nodes, n: Node)
    requires Linked(ns) && LinkedAt(ns + [n], |ns|)
    ensures Linked(ns + [n]) && Kept(ns, ns + [n])
  {
    var ms := ns + [n];
    forall x: nat | x < |ms| ensures LinkedAt(ms, x) {
      if x < |ns| { assert LinkedAt(ns, x); }
    }
  }

  /** A new node over old ones. */
  lemma PushValid(ns: Nodes, n: Node)
    requires Valid(ns) && LinkedAt(ns + [n], |ns|)
    requires Linked(ns + [n]) ==> SoundAt(ns + [n], |ns|)
    ensures Valid(ns + [n]) && Kept(ns, ns + [n])
  {
    hide Canonical;
    PushLinked(ns, n);
    var ms := ns + [n];
    forall x: nat | x < |ms| ensures SoundAt(ms, x) {
      if x < |ns| { assert SoundAt(ns, x); BytesKept(ns, ms, x); }
    }
  }

  lemma MemoLinked(ns: Nodes, x: Id, n: nat)
    requires Linked(ns) && x < |ns|
    ensures var ms := ns[x := ns[x].With(Some(n))]; Linked(ms) && Kept(ns, ms)
  {
    var ms := ns[x := ns[x].With(Some(n))];
    forall y: nat | y < |ms| ensures LinkedAt(ms, y) { assert LinkedAt(ns, y); }
  }

  /** Remembering the right length. */
  lemma MemoValid(ns: Nodes, x: Id, n: nat)
    requires Valid(ns) && x < |ns| && n == |Content(ns, x)|
    ensures var ms := ns[x := ns[x].With(Some(n))]; Valid(ms) && Kept(ns, ms)
  {
    hide Canonical;
    MemoLinked(ns, x, n);
    var ms := ns[x := ns[x].With(Some(n))];
    forall y: nat | y < |ms| ensures SoundAt(ms, y) { assert SoundAt(ns, y); BytesKept(ns, ms, y); }
  }

  lemma FlatLinked(ns: Nodes, n: Node)
    requires ((n.Small? && |n.bytes| <= SMALL_CAP) || n.Leaf?) && |n.bytes| <= MAX_STRING_LEN
    requires Linked(ns)
    ensures LinkedAt(ns + [n], |ns|) && Linked(ns + [n]) && Bytes(ns + [n], |ns|) == n.bytes
  {
    PushLinked(ns, n);
  }

  /** A concatenation's units are its sides', one after the other. */
  lemma ConcatContent(ns: Nodes, x: Id)
    requires Valid(ns) && x < |ns| && ns[x].Concat?
    ensures LinkedAt(ns, x) && Content(ns, x) == Content(ns, ns[x].left) + Content(ns, ns[x].right)
    ensures Text(Bytes(ns, x)) == Text(Bytes(ns, ns[x].left)) + Text(Bytes(ns, ns[x].right))
  {
    assert LinkedAt(ns, x);
    var l, r := Bytes(ns, ns[x].left), Bytes(ns, ns[x].right);
    assert SoundAt(ns, ns[x].left) && SoundAt(ns, ns[x].right);
    EncodeAppend(Text(l), Text(r));
    UnitsAppend(Text(l), Text(r));
    TextOfEncoded(Text(l) + Text(r));
  }

  /** All sides of a concatenation, and of its sides, hold something. */
  lemma ContentSize(ns: Nodes, x: Id)
    requires Valid(ns) && x < |ns|
    ensures Content(ns, x) == [] <==> ns[x].Len() == 0
  {
    assert SoundAt(ns, x);
    var cs := Text(Bytes(ns, x));
    EndsOnly(cs, 0);
    EndsAt(cs);
  }

  /** A flat string has as many bytes as units exactly when every code point is one byte. */
  lemma AsciiText(b: seq<Byte>)
    requires Canonical(b) && |b| == |UnitsIn(b)|
    ensures Text(b) == b && UnitsIn(b) == b
  {
    AsciiChars(Text(b));
  }

  lemma {:induction false} AsciiChars(cs: seq<Char>)
    requires Chars(cs)
    ensures |EncodeAll(cs)| >= |Units(cs)|
    ensures |EncodeAll(cs)| == |Units(cs)| ==> EncodeAll(cs) == cs && Units(cs) == cs
  {
    if cs != [] {
      AsciiChars(cs[1..]);
      Widths(cs[0]);
    }
  }

  lemma Widths(c: Char)
    requires c <= CODE_POINT_MAX
    ensures |Encode(c)| >= |UnitsOf(c)|
    ensures |Encode(c)| == |UnitsOf(c)| ==> Encode(c) == [c] && UnitsOf(c) == [c]
  {
  }

  // ---- The ends of a rope

  /** The rightmost flat node, which `last_leaf_bytes` walks to. */
  function LastLeaf(ns: Nodes, x: Id): Id
    requires Linked(ns) && x < |ns|
    ensures LastLeaf(ns, x) < |ns|
    decreases x
  {
    assert LinkedAt(ns, x);
    if ns[x].Concat? then LastLeaf(ns, ns[x].right) else x
  }

  function FirstLeaf(ns: Nodes, x: Id): Id
    requires Linked(ns) && x < |ns|
    ensures FirstLeaf(ns, x) < |ns|
    decreases x
  {
    assert LinkedAt(ns, x);
    if ns[x].Concat? then FirstLeaf(ns, ns[x].left) else x
  }

  /** The last flat piece ends as the whole does, and the first starts as the whole does. */
  lemma {:induction false} LastLeafEnds(ns: Nodes, x: Id)
    requires Valid(ns) && x < |ns|
    ensures TrailingHigh(Bytes(ns, LastLeaf(ns, x))) == TrailingHigh(Bytes(ns, x))
    decreases x
  {
    hide TrailingHigh, Bytes, Text, Content;
    if ns[x].Concat? {
      ConcatContent(ns, x);
      var r := ns[x].right;
      LastLeafEnds(ns, r);
      assert SoundAt(ns, x) && SoundAt(ns, r);
      NotEmptyText(ns, r);
      TrailingHighIsLast(Bytes(ns, x));
      TrailingHighIsLast(Bytes(ns, r));
    }
  }

  lemma {:induction false} FirstLeafStarts(ns: Nodes, x: Id)
    requires Valid(ns) && x < |ns|
    ensures LeadingLow(Bytes(ns, FirstLeaf(ns, x))) == LeadingLow(Bytes(ns, x))
    decreases x
  {
    hide LeadingLow, Bytes, Text, Content;
    if ns[x].Concat? {
      ConcatContent(ns, x);
      var l := ns[x].left;
      FirstLeafStarts(ns, l);
      assert SoundAt(ns, x) && SoundAt(ns, l);
      NotEmptyText(ns, l);
      LeadingLowIsFirst(Bytes(ns, x));
      LeadingLowIsFirst(Bytes(ns, l));
    }
  }

  lemma NotEmptyText(ns: Nodes, x: Id)
    requires Linked(ns) && x < |ns| && ns[x].Len() > 0
    ensures Text(Bytes(ns, x)) != []
  {
  }

  // ---- Work left on a stack of nodes

  /** The size of the tree below `x`, shared parts counted each time they occur. */
  ghost function Weight(ns: Nodes, x: Id): (w: nat)
    requires Linked(ns) && x < |ns|
    ensures w >= 1
    decreases x
  {
    assert LinkedAt(ns, x);
    if ns[x].Concat? then 1 + Weight(ns, ns[x].left) + Weight(ns, ns[x].right) else 1
  }

  lemma {:induction false} WeightKept(ns: Nodes, ms: Nodes, x: Id)
    requires Linked(ns) && Linked(ms) && Kept(ns, ms) && x < |ns|
    ensures Weight(ms, x) == Weight(ns, x)
    decreases x
  {
    assert LinkedAt(ns, x) && LinkedAt(ms, x);
    if ns[x].Concat? {
      WeightKept(ns, ms, ns[x].left);
      WeightKept(ns, ms, ns[x].right);
    }
  }

  ghost predicate AllIn(ns: Nodes, stack: seq<Id>) {
    forall i | 0 <= i < |stack| :: stack[i] < |ns|
  }

  ghost function StackWeight(ns: Nodes, stack: seq<Id>): nat
    requires Linked(ns) && AllIn(ns, stack)
  {
    if stack == [] then 0 else StackWeight(ns, stack[..|stack| - 1]) + Weight(ns, stack[|stack| - 1])
  }

  ghost function StackUnits(ns: Nodes, stack: seq<Id>): nat
    requires Linked(ns) && AllIn(ns, stack)
  {
    if stack == [] then 0 else StackUnits(ns, stack[..|stack| - 1]) + |Content(ns, stack[|stack| - 1])|
  }

  lemma StackPush(ns: Nodes, stack: seq<Id>, x: Id)
    requires Linked(ns) && AllIn(ns, stack) && x < |ns|
    ensures StackWeight(ns, stack + [x]) == StackWeight(ns, stack) + Weight(ns, x)
    ensures StackUnits(ns, stack + [x]) == StackUnits(ns, stack) + |Content(ns, x)|
  {
    assert (stack + [x])[..|stack|] == stack;
  }

  lemma {:induction false} StackKept(ns: Nodes, ms: Nodes, stack: seq<Id>)
    requires Linked(ns) && Linked(ms) && Kept(ns, ms) && AllIn(ns, stack)
    ensures AllIn(ms, stack)
    ensures StackWeight(ms, stack) == StackWeight(ns, stack) && StackUnits(ms, stack) == StackUnits(ns, stack)
  {
    hide Bytes, Weight;
    if stack != [] {
      var x := stack[|stack| - 1];
      StackKept(ns, ms, stack[..|stack| - 1]);
      WeightKept(ns, ms, x);
      BytesKept(ns, ms, x);
    }
  }
}
