/** Printing values that live in a heap and may refer back to themselves. */
module JsonHeap {
  import opened Wrappers
  import opened Wtf8
  import opened JsonText
  import opened Json

  type Handle = nat

  datatype Value = Undefined | NullValue | BoolValue(b: bool) | Finite(n: Numeral) | NonFinite | Ref(h: Handle)

  datatype Cell =
    | StringCell(cs: seq<Char>)
    | ArrayCell(elems: seq<Value>)
    | ObjectCell(members: seq<(seq<Char>, Value)>)
    | Other

  type Heap = map<Handle, Cell>

  function At(heap: Heap, h: Handle): Cell { if h in heap then heap[h] else Other }

  predicate IsContainer(c: Cell) { c.ArrayCell? || c.ObjectCell? }

  // ---- What is printed

  /** The tree `stringify` prints, if any: functions and `undefined` have none, in an array they
      are null and in an object they are left out. `Err` for a container met again inside
      itself, or too deep. */
  function Shown(heap: Heap, v: Value, seen: seq<Handle>, cap: nat): Result<Option<Json>>
    requires |seen| <= cap
    decreases cap - |seen|, 0
  {
    match v
    case Undefined => Ok(None)
    case NullValue => Ok(Some(Null))
    case BoolValue(b) => Ok(Some(Bool(b)))
    case Finite(n) => Ok(Some(Num(n)))
    case NonFinite => Ok(Some(Null))
    case Ref(h) =>
      match At(heap, h)
      case StringCell(cs) => Ok(Some(Str(cs)))
      case Other => Ok(None)
      case ArrayCell(elems) =>
        if h in seen || |seen| >= cap then Err
        else
          var es := ShownElems(heap, elems, seen + [h], cap);
          if es.Err? then Err else Ok(Some(Arr(es.value)))
      case ObjectCell(members) =>
        if h in seen || |seen| >= cap then Err
        else
          var ms := ShownMembers(heap, members, seen + [h], cap);
          if ms.Err? then Err else Ok(Some(Obj(ms.value)))
  }

  function ShownElems(heap: Heap, vs: seq<Value>, seen: seq<Handle>, cap: nat): Result<Elems>
    requires |seen| <= cap
    decreases cap - |seen|, 1 + |vs|
  {
    if vs == [] then Ok(NoElems)
    else
      var v := Shown(heap, vs[0], seen, cap);
      if v.Err? then Err
      else
        var rest := ShownElems(heap, vs[1..], seen, cap);
        if rest.Err? then Err else Ok(Elem(if v.value.None? then Null else v.value.value, rest.value))
  }

  function ShownMembers(heap: Heap, ms: seq<(seq<Char>, Value)>, seen: seq<Handle>, cap: nat): Result<Members>
    requires |seen| <= cap
    decreases cap - |seen|, 1 + |ms|
  {
    if ms == [] then Ok(NoMembers)
    else
      var v := Shown(heap, ms[0].1, seen, cap);
      if v.Err? then Err
      else
        var rest := ShownMembers(heap, ms[1..], seen, cap);
        if rest.Err? then Err
        else if v.value.None? then rest
        else Ok(Member(ms[0].0, v.value.value, rest.value))
  }

  // ---- The printer

  function Joined(parts: seq<Text>, sep: Text): Text {
    if parts == [] then [] else if |parts| == 1 then parts[0] else parts[0] + sep + Joined(parts[1..], sep)
  }

  function Separator(style: Style): Text { if style.Pretty? then [COMMA, NEWLINE] else [COMMA] }

  /** The indentation at the start of a part. */
  function Indent(style: Style, inner: Text): Text { if style.Pretty? then inner else [] }

  function Bracketed(open: Char, parts: seq<Text>, style: Style, cur: Text, close: Char): Text {
    if style.Pretty? && parts != [] then
      [open, NEWLINE] + Joined(parts, Separator(style)) + [NEWLINE] + cur + [close]
    else [open] + Joined(parts, Separator(style)) + [close]
  }

  /** `stringify_seen` and `stringify_at`. */
  function Stringify(heap: Heap, v: Value, style: Style, cur: Text, seen: seq<Handle>, cap: nat): Result<Option<Text>>
    requires |seen| <= cap
    decreases cap - |seen|, 0
  {
    match v
    case Undefined => Ok(None)
    case NullValue => Ok(Some(NULL))
    case BoolValue(b) => Ok(Some(if b then TRUE else FALSE))
    case Finite(n) => Ok(Some(NumeralText(n)))
    case NonFinite => Ok(Some(NULL))
    case Ref(h) =>
      match At(heap, h)
      case StringCell(cs) => Ok(Some(Quote(cs)))
      case Other => Ok(None)
      case ArrayCell(elems) =>
        if h in seen || |seen| >= cap then Err
        else
          var parts := ElemParts(heap, elems, style, Inner(style, cur), seen + [h], cap);
          if parts.Err? then Err else Ok(Some(Bracketed(OPEN, parts.value, style, cur, CLOSE)))
      case ObjectCell(members) =>
        if h in seen || |seen| >= cap then Err
        else
          var parts := MemberParts(heap, members, style, Inner(style, cur), seen + [h], cap);
          if parts.Err? then Err else Ok(Some(Bracketed(LBRACE, parts.value, style, cur, RBRACE)))
  }

  function ElemParts(heap: Heap, vs: seq<Value>, style: Style, inner: Text,
      seen: seq<Handle>, cap: nat): Result<seq<Text>>
    requires |seen| <= cap
    decreases cap - |seen|, 1 + |vs|
  {
    if vs == [] then Ok([])
    else
      var t := Stringify(heap, vs[0], style, inner, seen, cap);
      if t.Err? then Err
      else
        var rest := ElemParts(heap, vs[1..], style, inner, seen, cap);
        if rest.Err? then Err
        else Ok([Indent(style, inner) + if t.value.None? then NULL else t.value.value] + rest.value)
  }

  function MemberParts(heap: Heap, ms: seq<(seq<Char>, Value)>, style: Style, inner: Text,
      seen: seq<Handle>, cap: nat): Result<seq<Text>>
    requires |seen| <= cap
    decreases cap - |seen|, 1 + |ms|
  {
    if ms == [] then Ok([])
    else
      var t := Stringify(heap, ms[0].1, style, inner, seen, cap);
      if t.Err? then Err
      else
        var rest := MemberParts(heap, ms[1..], style, inner, seen, cap);
        if rest.Err? then Err
        else if t.value.None? then rest
        else Ok([Indent(style, inner) + Quote(ms[0].0) + Colon(style) + t.value.value] + rest.value)
  }

  // ---- The printer prints the tree

  function ElemTexts(es: Elems, style: Style, inner: Text): seq<Text> {
    match es
    case NoElems => []
    case Elem(v, tail) => [Indent(style, inner) + Print(v, style, inner)] + ElemTexts(tail, style, inner)
  }

  function MemberTexts(ms: Members, style: Style, inner: Text): seq<Text> {
    match ms
    case NoMembers => []
    case Member(k, v, rest) =>
      [Indent(style, inner) + Quote(k) + Colon(style) + Print(v, style, inner)] + MemberTexts(rest, style, inner)
  }

  function Texted(r: Result<Option<Json>>, style: Style, cur: Text): Result<Option<Text>> {
    if r.Err? then Err else if r.value.None? then Ok(None) else Ok(Some(Print(r.value.value, style, cur)))
  }

  lemma {:induction false} StringifyPrintsShown(heap: Heap, v: Value, style: Style, cur: Text,
      seen: seq<Handle>, cap: nat)
    requires |seen| <= cap
    ensures Stringify(heap, v, style, cur, seen, cap) == Texted(Shown(heap, v, seen, cap), style, cur)
    decreases cap - |seen|, 0
  {
    hide Bracketed, Print, Quote, NumeralText, ElemTexts, MemberTexts;
    PrintScalars(style, cur);
    match v
    case Ref(h) =>
      match At(heap, h) {
        case ArrayCell(elems) =>
          if h !in seen && |seen| < cap {
            ElemPartsPrint(heap, elems, style, Inner(style, cur), seen + [h], cap);
            var es := ShownElems(heap, elems, seen + [h], cap);
            if es.Ok? { ArrayText(es.value, style, cur); }
          }
        case ObjectCell(members) =>
          if h !in seen && |seen| < cap {
            MemberPartsPrint(heap, members, style, Inner(style, cur), seen + [h], cap);
            var ms := ShownMembers(heap, members, seen + [h], cap);
            if ms.Ok? { ObjectText(ms.value, style, cur); }
          }
        case StringCell(cs) => PrintString(cs, style, cur);
        case Other =>
      }
    case Finite(n) => PrintNumber(n, style, cur);
    case _ =>
  }

  lemma PrintScalars(style: Style, cur: Text)
    ensures Print(Null, style, cur) == NULL && Print(Bool(true), style, cur) == TRUE
      && Print(Bool(false), style, cur) == FALSE
  {
  }

  lemma PrintString(cs: seq<Char>, style: Style, cur: Text)
    ensures Print(Str(cs), style, cur) == Quote(cs)
  {
  }

  lemma PrintNumber(n: Numeral, style: Style, cur: Text)
    ensures Print(Num(n), style, cur) == NumeralText(n)
  {
  }

  lemma {:induction false} ElemPartsPrint(heap: Heap, vs: seq<Value>, style: Style, inner: Text,
      seen: seq<Handle>, cap: nat)
    requires |seen| <= cap
    ensures var es := ShownElems(heap, vs, seen, cap);
      ElemParts(heap, vs, style, inner, seen, cap) == if es.Err? then Err else Ok(ElemTexts(es.value, style, inner))
    decreases cap - |seen|, 1 + |vs|
  {
    if vs != [] {
      PrintScalars(style, inner);
      StringifyPrintsShown(heap, vs[0], style, inner, seen, cap);
      ElemPartsPrint(heap, vs[1..], style, inner, seen, cap);
    }
  }

  lemma {:induction false} MemberPartsPrint(heap: Heap, ms: seq<(seq<Char>, Value)>, style: Style, inner: Text,
      seen: seq<Handle>, cap: nat)
    requires |seen| <= cap
    ensures var r := ShownMembers(heap, ms, seen, cap);
      MemberParts(heap, ms, style, inner, seen, cap) == if r.Err? then Err else Ok(MemberTexts(r.value, style, inner))
    decreases cap - |seen|, 1 + |ms|
  {
    if ms != [] {
      StringifyPrintsShown(heap, ms[0].1, style, inner, seen, cap);
      MemberPartsPrint(heap, ms[1..], style, inner, seen, cap);
    }
  }

  lemma {:induction false} JoinedElems(es: Elems, style: Style, cur: Text)
    requires es.Elem?
    ensures var parts := ElemTexts(es, style, Inner(style, cur));
      parts != []
        && PrintElems(es, style, cur) == (if style.Pretty? then [NEWLINE] else []) + Joined(parts, Separator(style))
  {
    hide Print;
    var inner := Inner(style, cur);
    var parts := ElemTexts(es, style, inner);
    assert parts[1..] == ElemTexts(es.tail, style, inner);
    if es.tail.Elem? {
      JoinedElems(es.tail, style, cur);
    } else {
      assert PrintElems(es.tail, style, cur) == [];
    }
  }

  lemma {:induction false} JoinedMembers(ms: Members, style: Style, cur: Text)
    requires ms.Member?
    ensures var parts := MemberTexts(ms, style, Inner(style, cur));
      parts != []
        && PrintMembers(ms, style, cur) == (if style.Pretty? then [NEWLINE] else []) + Joined(parts, Separator(style))
  {
    hide PrintMembers, MemberTexts, Inner;
    var inner := Inner(style, cur);
    var parts := MemberTexts(ms, style, inner);
    var newline := if style.Pretty? then [NEWLINE] else [];
    MembersPrinted(ms, style, cur);
    EmptyTexts(style, inner);
    if ms.rest.Member? {
      JoinedMembers(ms.rest, style, cur);
      Rejoin(newline, parts[0], [COMMA], Joined(parts[1..], Separator(style)));
    }
  }

  lemma MembersPrinted(ms: Members, style: Style, cur: Text)
    requires ms.Member?
    ensures var parts := MemberTexts(ms, style, Inner(style, cur));
      && parts != [] && parts[1..] == MemberTexts(ms.rest, style, Inner(style, cur))
      && PrintMembers(ms, style, cur)
         == (if style.Pretty? then [NEWLINE] else []) + parts[0] + (if ms.rest.NoMembers? then [] else [COMMA])
            + PrintMembers(ms.rest, style, cur)
    ensures PrintMembers(NoMembers, style, cur) == []
  {
    hide Print, Quote, Colon, Inner, Gap, Indent;
    var inner := Inner(style, cur);
    GapIsIndent(style, inner);
    Reline(if style.Pretty? then [NEWLINE] else [], Indent(style, inner), Quote(ms.key), Colon(style),
           Print(ms.value, style, inner));
  }

  lemma GapIsIndent(style: Style, inner: Text)
    ensures Gap(style, inner) == (if style.Pretty? then [NEWLINE] else []) + Indent(style, inner)
  {
  }

  lemma Reline(a: Text, b: Text, c: Text, d: Text, e: Text)
    ensures (a + b) + c + d + e == a + (b + c + d + e)
  {
  }

  lemma Rejoin(newline: Text, part: Text, comma: Text, rest: Text)
    ensures newline + part + comma + (newline + rest) == newline + (part + (comma + newline) + rest)
  {
  }

  lemma EmptyTexts(style: Style, inner: Text)
    ensures ElemTexts(NoElems, style, inner) == [] && MemberTexts(NoMembers, style, inner) == []
    ensures Joined([], Separator(style)) == []
  {
  }

  lemma ArrayText(es: Elems, style: Style, cur: Text)
    ensures Bracketed(OPEN, ElemTexts(es, style, Inner(style, cur)), style, cur, CLOSE) == Print(Arr(es), style, cur)
  {
    hide PrintElems, ElemTexts, Joined;
    EmptyTexts(style, Inner(style, cur));
    if es.Elem? {
      JoinedElems(es, style, cur);
      var body := Joined(ElemTexts(es, style, Inner(style, cur)), Separator(style));
      assert style.Pretty? ==>
        [OPEN] + ([NEWLINE] + body) + ([NEWLINE] + cur) + [CLOSE] == [OPEN, NEWLINE] + body + [NEWLINE] + cur + [CLOSE];
    }
  }

  lemma ObjectText(ms: Members, style: Style, cur: Text)
    ensures Bracketed(LBRACE, MemberTexts(ms, style, Inner(style, cur)), style, cur, RBRACE)
      == Print(Obj(ms), style, cur)
  {
    hide PrintMembers, MemberTexts, Joined;
    EmptyTexts(style, Inner(style, cur));
    if ms.Member? {
      JoinedMembers(ms, style, cur);
      var body := Joined(MemberTexts(ms, style, Inner(style, cur)), Separator(style));
      assert style.Pretty? ==>
        [LBRACE] + ([NEWLINE] + body) + ([NEWLINE] + cur) + [RBRACE]
        == [LBRACE, NEWLINE] + body + [NEWLINE] + cur + [RBRACE];
    }
  }

  // ---- What is printed can be read back

  /** Strings are canonical, numbers have a text, and each object's keys are distinct. */
  ghost predicate GoodHeap(heap: Heap) {
    forall h | h in heap :: GoodCell(heap[h])
  }

  ghost predicate GoodValue(v: Value) { v.Finite? ==> NumeralOk(v.n) }

  ghost predicate GoodCell(c: Cell) {
    match c
    case StringCell(cs) => Chars(cs) && Paired(cs)
    case ArrayCell(elems) => forall i | 0 <= i < |elems| :: GoodValue(elems[i])
    case ObjectCell(members) => GoodSlots(members)
    case Other => true
  }

  ghost predicate GoodSlots(ms: seq<(seq<Char>, Value)>) {
    && (forall i | 0 <= i < |ms| :: Chars(ms[i].0) && Paired(ms[i].0) && GoodValue(ms[i].1))
    && (forall i, j | 0 <= i < j < |ms| :: ms[i].0 != ms[j].0)
  }

  lemma {:induction false} ShownIsGood(heap: Heap, v: Value, seen: seq<Handle>, cap: nat)
    requires |seen| <= cap && GoodHeap(heap) && GoodValue(v)
    ensures var r := Shown(heap, v, seen, cap);
      r.Ok? && r.value.Some? ==> Good(r.value.value) && Depth(r.value.value) <= cap - |seen|
    decreases cap - |seen|, 0
  {
    match v
    case Ref(h) =>
      match At(heap, h) {
        case ArrayCell(elems) =>
          assert GoodCell(heap[h]);
          if h !in seen && |seen| < cap { ElemsAreGood(heap, elems, seen + [h], cap); }
        case ObjectCell(members) =>
          assert GoodCell(heap[h]);
          if h !in seen && |seen| < cap { MembersAreGood(heap, members, seen + [h], cap); }
        case StringCell(cs) => assert GoodCell(heap[h]);
        case Other =>
      }
    case _ =>
  }

  lemma {:induction false} ElemsAreGood(heap: Heap, vs: seq<Value>, seen: seq<Handle>, cap: nat)
    requires |seen| <= cap && GoodHeap(heap) && forall i | 0 <= i < |vs| :: GoodValue(vs[i])
    ensures var r := ShownElems(heap, vs, seen, cap);
      r.Ok? ==> GoodElems(r.value) && ElemsDepth(r.value) <= cap - |seen|
    decreases cap - |seen|, 1 + |vs|
  {
    if vs != [] {
      ShownIsGood(heap, vs[0], seen, cap);
      ElemsAreGood(heap, vs[1..], seen, cap);
    }
  }

  /** The keys shown are among those of the object. */
  ghost predicate KeysAmong(shown: Members, ms: seq<(seq<Char>, Value)>) {
    forall k | k in KeysOf(shown) :: exists i :: 0 <= i < |ms| && ms[i].0 == k
  }

  lemma {:induction false} MembersAreGood(heap: Heap, ms: seq<(seq<Char>, Value)>, seen: seq<Handle>, cap: nat)
    requires |seen| <= cap && GoodHeap(heap) && GoodSlots(ms)
    ensures var r := ShownMembers(heap, ms, seen, cap);
      r.Ok? ==> GoodMembers(r.value) && MembersDepth(r.value) <= cap - |seen| && KeysAmong(r.value, ms)
    decreases cap - |seen|, 1 + |ms|
  {
    if ms != [] {
      ShownIsGood(heap, ms[0].1, seen, cap);
      MembersAreGood(heap, ms[1..], seen, cap);
      var rest := ShownMembers(heap, ms[1..], seen, cap);
      if rest.Ok? {
        forall k | k in KeysOf(rest.value) ensures k != ms[0].0 && exists i :: 0 <= i < |ms| && ms[i].0 == k {
          var i :| 0 <= i < |ms[1..]| && ms[1..][i].0 == k;
          assert ms[i + 1].0 == k;
        }
      }
    }
  }

  /** Whatever is printed, compactly or indented with space, parses back as exactly the tree
      shown, under the same depth limit. */
  lemma ParseUndoesStringify(heap: Heap, v: Value, style: Style, cap: nat)
    requires GoodHeap(heap) && GoodValue(v) && BlankStyle(style, [])
    ensures var t, shown := Stringify(heap, v, style, [], [], cap), Shown(heap, v, [], cap);
      && (t.Err? <==> shown.Err?)
      && (t.Ok? ==> (t.value.None? <==> shown.value.None?))
      && (t.Ok? && t.value.Some? ==> Parse(t.value.value, cap) == Ok(shown.value.value))
  {
    StringifyPrintsShown(heap, v, style, [], [], cap);
    ShownIsGood(heap, v, [], cap);
    var shown := Shown(heap, v, [], cap);
    if shown.Ok? && shown.value.Some? { ParseUndoesPrint(shown.value.value, style, cap); }
  }

  // ---- When printing gives up

  /** The values a container holds. */
  function Children(c: Cell): seq<Value> {
    match c
    case ArrayCell(elems) => elems
    case ObjectCell(members) => Seconds(members)
    case _ => []
  }

  function Seconds(ms: seq<(seq<Char>, Value)>): (vs: seq<Value>)
    ensures |vs| == |ms| && forall i | 0 <= i < |ms| :: vs[i] == ms[i].1
  {
    if ms == [] then [] else [ms[0].1] + Seconds(ms[1..])
  }

  /** Containers each held by the one before. */
  ghost predicate Path(heap: Heap, p: seq<Handle>) {
    && (forall i | 0 <= i < |p| :: IsContainer(At(heap, p[i])))
    && (forall i | 0 <= i < |p| - 1 :: Ref(p[i + 1]) in Children(At(heap, p[i])))
  }

  ghost predicate PathFrom(heap: Heap, v: Value, p: seq<Handle>) {
    Path(heap, p) && (p != [] ==> v == Ref(p[0]))
  }

  /** If printing succeeds, no path from the value is longer than the levels left. */
  lemma {:induction false} ShownIsShallow(heap: Heap, v: Value, seen: seq<Handle>, cap: nat, p: seq<Handle>)
    requires |seen| <= cap && PathFrom(heap, v, p) && Shown(heap, v, seen, cap).Ok?
    ensures |p| <= cap - |seen|
    decreases cap - |seen|, 0
  {
    if p != [] {
      var h := p[0];
      if |p| > 1 {
        var child := Ref(p[1]);
        match At(heap, h) {
          case ArrayCell(elems) =>
            AllElemsShown(heap, elems, seen + [h], cap, child);
          case ObjectCell(members) =>
            var i :| 0 <= i < |members| && members[i].1 == child;
            AllMembersShown(heap, members, seen + [h], cap, i);
        }
        TailPath(heap, p);
        ShownIsShallow(heap, child, seen + [h], cap, p[1..]);
      }
    }
  }

  lemma TailPath(heap: Heap, p: seq<Handle>)
    requires Path(heap, p) && |p| > 1
    ensures PathFrom(heap, Ref(p[1]), p[1..])
  {
  }

  lemma {:induction false} AllElemsShown(heap: Heap, vs: seq<Value>, seen: seq<Handle>, cap: nat, v: Value)
    requires |seen| <= cap && ShownElems(heap, vs, seen, cap).Ok? && v in vs
    ensures Shown(heap, v, seen, cap).Ok?
  {
    if vs[0] != v { AllElemsShown(heap, vs[1..], seen, cap, v); }
  }

  lemma {:induction false} AllMembersShown(heap: Heap, ms: seq<(seq<Char>, Value)>, seen: seq<Handle>, cap: nat, i: nat)
    requires |seen| <= cap && ShownMembers(heap, ms, seen, cap).Ok? && i < |ms|
    ensures Shown(heap, ms[i].1, seen, cap).Ok?
  {
    if i > 0 { AllMembersShown(heap, ms[1..], seen, cap, i - 1); }
  }

  /** If printing gives up, there is a path of any length past the limit: on to where it gave
      up, and round the cycle as often as it takes. */
  lemma {:induction false} GivingUpIsDeep(heap: Heap, v: Value, seen: seq<Handle>, cap: nat) returns (p: seq<Handle>)
    requires |seen| <= cap && Shown(heap, v, seen, cap).Err?
    requires v.Ref? && IsContainer(At(heap, v.h)) ==> Path(heap, seen + [v.h])
    ensures Path(heap, p) && |p| == cap + 1
    ensures (seen + [v.h]) != [] && p[0] == (seen + [v.h])[0]
    decreases cap - |seen|, 0
  {
    var h := v.h;
    var here := seen + [h];
    if |seen| >= cap {
      return here;
    }
    if h in seen {
      var i :| 0 <= i < |seen| && seen[i] == h;
      p := RoundAndRound(heap, here, i, cap + 1);
      return;
    }
    match At(heap, h) {
      case ArrayCell(elems) =>
        var child := FailingElem(heap, elems, here, cap);
        LongerPath(heap, here, child);
        p := GivingUpIsDeep(heap, child, here, cap);
      case ObjectCell(members) =>
        var child := FailingMember(heap, members, here, cap);
        SecondIn(members, child);
        LongerPath(heap, here, child);
        p := GivingUpIsDeep(heap, child, here, cap);
    }
  }

  lemma SecondIn(ms: seq<(seq<Char>, Value)>, v: Value)
    ensures v in Seconds(ms) <==> exists i :: 0 <= i < |ms| && ms[i].1 == v
  {
  }

  lemma LongerPath(heap: Heap, p: seq<Handle>, v: Value)
    requires p != [] && Path(heap, p) && v in Children(At(heap, p[|p| - 1]))
    ensures v.Ref? && IsContainer(At(heap, v.h)) ==> Path(heap, p + [v.h])
  {
  }

  lemma {:induction false} FailingElem(heap: Heap, vs: seq<Value>, seen: seq<Handle>, cap: nat) returns (v: Value)
    requires |seen| <= cap && ShownElems(heap, vs, seen, cap).Err?
    ensures v in vs && Shown(heap, v, seen, cap).Err?
  {
    if Shown(heap, vs[0], seen, cap).Err? { return vs[0]; }
    v := FailingElem(heap, vs[1..], seen, cap);
  }

  lemma {:induction false} FailingMember(heap: Heap, ms: seq<(seq<Char>, Value)>, seen: seq<Handle>, cap: nat)
      returns (v: Value)
    requires |seen| <= cap && ShownMembers(heap, ms, seen, cap).Err?
    ensures (exists i :: 0 <= i < |ms| && ms[i].1 == v) && Shown(heap, v, seen, cap).Err?
  {
    if Shown(heap, ms[0].1, seen, cap).Err? { return ms[0].1; }
    v := FailingMember(heap, ms[1..], seen, cap);
    var i :| 0 <= i < |ms[1..]| && ms[1..][i].1 == v;
    assert ms[i + 1].1 == v;
  }

  /** A path that ends where it was at `i` goes round to any length. */
  lemma {:induction false} RoundAndRound(heap: Heap, p: seq<Handle>, i: nat, n: nat) returns (q: seq<Handle>)
    requires Path(heap, p) && i < |p| - 1 && p[i] == p[|p| - 1] && n > 0
    ensures Path(heap, q) && |q| == n && q[0] == p[0]
    decreases if n > |p| then n - |p| else 0
  {
    if |p| >= n {
      q := p[..n];
    } else {
      var step := p + [p[i + 1]];
      assert Path(heap, step);
      q := RoundAndRound(heap, step, i + 1, n);
    }
  }

  /** Printing gives up exactly when some path of containers from the value is longer than the
      limit: a cycle always, a tree only if it is too deep. */
  lemma GivesUpIffTooDeep(heap: Heap, v: Value, style: Style, cap: nat)
    ensures Stringify(heap, v, style, [], [], cap).Err? <==> exists p :: PathFrom(heap, v, p) && |p| > cap
  {
    StringifyPrintsShown(heap, v, style, [], [], cap);
    if Shown(heap, v, [], cap).Err? {
      assert v.Ref? && IsContainer(At(heap, v.h)) && [] + [v.h] == [v.h];
      var p := GivingUpIsDeep(heap, v, [], cap);
      assert PathFrom(heap, v, p) && |p| > cap;
    } else if exists p :: PathFrom(heap, v, p) && |p| > cap {
      var p :| PathFrom(heap, v, p) && |p| > cap;
      ShownIsShallow(heap, v, [], cap, p);
      assert false;
    }
  }
}
