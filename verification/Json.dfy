/** JSON values, printed compactly or indented, and parsed. */
module Json {
  import opened Wtf8
  import opened JsonText

  datatype Json =
    | Null
    | Bool(b: bool)
    | Num(n: Numeral)
    | Str(cs: seq<Char>)
    | Arr(elems: Elems)
    | Obj(members: Members)

  datatype Elems = NoElems | Elem(head: Json, tail: Elems)

  datatype Members = NoMembers | Member(key: seq<Char>, value: Json, rest: Members)

  const NULL: Text := [0x6E, 0x75, 0x6C, 0x6C]
  const TRUE: Text := [0x74, 0x72, 0x75, 0x65]
  const FALSE: Text := [0x66, 0x61, 0x6C, 0x73, 0x65]
  const COMMA: Char := 0x2C
  const COLON: Char := 0x3A
  const OPEN: Char := 0x5B
  const CLOSE: Char := 0x5D
  const LBRACE: Char := 0x7B
  const RBRACE: Char := 0x7D
  const NEWLINE: Char := 0x0A
  const SPACE: Char := 0x20

  // ---- Printing

  /** The `space` argument, when there is one. */
  datatype Style = Compact | Pretty(indent: Text)

  function Inner(style: Style, cur: Text): Text { if style.Pretty? then cur + style.indent else cur }

  /** What comes before each member, and before the closing bracket. */
  function Gap(style: Style, cur: Text): Text { if style.Pretty? then [NEWLINE] + cur else [] }

  function Colon(style: Style): Text { if style.Pretty? then [COLON, SPACE] else [COLON] }

  /** `stringify_seen` and `stringify_at`, of a tree. */
  function Print(v: Json, style: Style, cur: Text): Text {
    match v
    case Null => NULL
    case Bool(b) => if b then TRUE else FALSE
    case Num(n) => NumeralText(n)
    case Str(cs) => Quote(cs)
    case Arr(NoElems) => [OPEN, CLOSE]
    case Arr(es) => [OPEN] + PrintElems(es, style, cur) + Gap(style, cur) + [CLOSE]
    case Obj(NoMembers) => [LBRACE, RBRACE]
    case Obj(ms) => [LBRACE] + PrintMembers(ms, style, cur) + Gap(style, cur) + [RBRACE]
  }

  /** The parts, joined by commas. */
  function PrintElems(es: Elems, style: Style, cur: Text): Text {
    match es
    case NoElems => []
    case Elem(v, tail) =>
      Gap(style, Inner(style, cur)) + Print(v, style, Inner(style, cur))
      + (if tail.NoElems? then [] else [COMMA]) + PrintElems(tail, style, cur)
  }

  function PrintMembers(ms: Members, style: Style, cur: Text): Text {
    match ms
    case NoMembers => []
    case Member(k, v, rest) =>
      Gap(style, Inner(style, cur)) + Quote(k) + Colon(style) + Print(v, style, Inner(style, cur))
      + (if rest.NoMembers? then [] else [COMMA]) + PrintMembers(rest, style, cur)
  }

  // ---- Parsing

  predicate IsSpace(c: Char) { c == 0x20 || c == 0x09 || c == 0x0A || c == 0x0D }

  /** `skip_ws`. */
  function SkipSpace(t: Text): (r: Text)
    ensures |r| <= |t|
  {
    if t != [] && IsSpace(t[0]) then SkipSpace(t[1..]) else t
  }

  /** `lit`. */
  function Literal(t: Text, word: Text, v: Json): (r: Result<(Json, Text)>)
    ensures r.Ok? ==> |r.value.1| == |t| - |word|
  {
    if word <= t then Ok((v, t[|word|..])) else Err
  }

  /** `parse_value`: what `t` starts with, and what follows. `room` is how many more levels may
      be opened. */
  function ParseValue(s: Text, room: nat): (r: Result<(Json, Text)>)
    ensures r.Ok? ==> |r.value.1| < |s|
    decreases |s|, 0
  {
    var t := SkipSpace(s);
    if t == [] then Err
    else if (t[0] == OPEN || t[0] == LBRACE) && room == 0 then Err
    else if t[0] == NULL[0] then Literal(t, NULL, Null)
    else if t[0] == TRUE[0] then Literal(t, TRUE, Bool(true))
    else if t[0] == FALSE[0] then Literal(t, FALSE, Bool(false))
    else if t[0] == QUOTE then
      var cs := ParseChars(t[1..]);
      if cs.Err? then Err else Ok((Str(cs.value.0), cs.value.1))
    else if t[0] == OPEN then
      var u := SkipSpace(t[1..]);
      if u != [] && u[0] == CLOSE then Ok((Arr(NoElems), u[1..]))
      else
        var es := ParseElems(u, room - 1);
        if es.Err? then Err else Ok((Arr(es.value.0), es.value.1))
    else if t[0] == LBRACE then
      var u := SkipSpace(t[1..]);
      if u != [] && u[0] == RBRACE then Ok((Obj(NoMembers), u[1..]))
      else
        var ms := ParseMembers(u, room - 1);
        if ms.Err? then Err else Ok((Obj(SetAll(NoMembers, ms.value.0)), ms.value.1))
    else if t[0] == 0x2D || IsDigit(t[0]) then
      var n := ParseNumber(t);
      if n.Err? then Err else Ok((Num(n.value.0), n.value.1))
    else Err
  }

  /** The loop over an array's elements, to its end. */
  function ParseElems(s: Text, room: nat): (r: Result<(Elems, Text)>)
    ensures r.Ok? ==> |r.value.1| < |s|
    decreases |s|, 1
  {
    var v := ParseValue(s, room);
    if v.Err? then Err
    else
      var t := SkipSpace(v.value.1);
      if t == [] then Err
      else if t[0] == CLOSE then Ok((Elem(v.value.0, NoElems), t[1..]))
      else if t[0] == COMMA then
        var rest := ParseElems(t[1..], room);
        if rest.Err? then Err else Ok((Elem(v.value.0, rest.value.0), rest.value.1))
      else Err
  }

  /** One member of an object. */
  function ParseMember(s: Text, room: nat): (r: Result<((seq<Char>, Json), Text)>)
    ensures r.Ok? ==> |r.value.1| < |s|
    decreases |s|, 0
  {
    var t := SkipSpace(s);
    if t == [] || t[0] != QUOTE then Err
    else
      var k := ParseChars(t[1..]);
      if k.Err? then Err
      else
        var u := SkipSpace(k.value.1);
        if u == [] || u[0] != COLON then Err
        else
          var v := ParseValue(u[1..], room);
          if v.Err? then Err else Ok(((k.value.0, v.value.0), v.value.1))
  }

  /** The loop over an object's members, to its end. */
  function ParseMembers(s: Text, room: nat): (r: Result<(Members, Text)>)
    ensures r.Ok? ==> |r.value.1| < |s|
    decreases |s|, 1
  {
    var m := ParseMember(s, room);
    if m.Err? then Err
    else
      var ((k, v), after) := m.value;
      var t := SkipSpace(after);
      if t == [] then Err
      else if t[0] == RBRACE then Ok((Member(k, v, NoMembers), t[1..]))
      else if t[0] == COMMA then
        var rest := ParseMembers(t[1..], room);
        if rest.Err? then Err else Ok((Member(k, v, rest.value.0), rest.value.1))
      else Err
  }

  /** `set_property`: a new key goes last, a known one keeps its place. */
  function SetMember(ms: Members, k: seq<Char>, v: Json): Members {
    match ms
    case NoMembers => Member(k, v, NoMembers)
    case Member(j, w, rest) => if j == k then Member(k, v, rest) else Member(j, w, SetMember(rest, k, v))
  }

  function SetAll(ms: Members, more: Members): Members
    decreases more
  {
    match more
    case NoMembers => ms
    case Member(k, v, rest) => SetAll(SetMember(ms, k, v), rest)
  }

  /** `parse`. */
  function Parse(s: Text, maxDepth: nat): Result<Json> {
    var v := ParseValue(s, maxDepth);
    if v.Err? || SkipSpace(v.value.1) != [] then Err else Ok(v.value.0)
  }

  // ---- What can be printed and read back

  /** How many containers deep a value goes. */
  function Depth(v: Json): nat {
    match v
    case Arr(es) => 1 + ElemsDepth(es)
    case Obj(ms) => 1 + MembersDepth(ms)
    case _ => 0
  }

  function ElemsDepth(es: Elems): nat {
    match es
    case NoElems => 0
    case Elem(v, tail) => Max(Depth(v), ElemsDepth(tail))
  }

  function MembersDepth(ms: Members): nat {
    match ms
    case NoMembers => 0
    case Member(_, v, rest) => Max(Depth(v), MembersDepth(rest))
  }

  function Max(a: nat, b: nat): nat { if a >= b then a else b }

  function KeysOf(ms: Members): set<seq<Char>> {
    match ms
    case NoMembers => {}
    case Member(k, _, rest) => {k} + KeysOf(rest)
  }

  /** Numbers that have a text, canonical strings, and objects whose keys are distinct. */
  ghost predicate Good(v: Json) {
    match v
    case Num(n) => NumeralOk(n)
    case Str(cs) => Chars(cs) && Paired(cs)
    case Arr(es) => GoodElems(es)
    case Obj(ms) => GoodMembers(ms)
    case _ => true
  }

  ghost predicate GoodElems(es: Elems) {
    match es
    case NoElems => true
    case Elem(v, tail) => Good(v) && GoodElems(tail)
  }

  ghost predicate GoodMembers(ms: Members) {
    match ms
    case NoMembers => true
    case Member(k, v, rest) => Chars(k) && Paired(k) && Good(v) && k !in KeysOf(rest) && GoodMembers(rest)
  }

  ghost predicate Blank(t: Text) { forall i | 0 <= i < |t| :: IsSpace(t[i]) }

  ghost predicate BlankStyle(style: Style, cur: Text) {
    Blank(cur) && (style.Pretty? ==> Blank(style.indent))
  }

  // ---- Space is skipped

  lemma {:induction false} SkipBlank(b: Text, t: Text)
    requires Blank(b)
    ensures SkipSpace(b + t) == SkipSpace(t)
  {
    if b == [] {
      assert b + t == t;
    } else {
      SkipBlank(b[1..], t);
      assert (b + t)[1..] == b[1..] + t;
    }
  }

  lemma GapIsBlank(style: Style, cur: Text)
    requires BlankStyle(style, cur)
    ensures Blank(Gap(style, cur)) && BlankStyle(style, Inner(style, cur))
  {
  }

  /** Space before a value changes nothing. */
  lemma ValueAfterGap(gap: Text, s: Text, room: nat)
    requires Blank(gap)
    ensures ParseValue(gap + s, room) == ParseValue(s, room)
  {
    SkipBlank(gap, s);
  }

  /** A value's text starts with something that is neither space nor a closing bracket. */
  lemma PrintStarts(v: Json, style: Style, cur: Text)
    requires Good(v)
    ensures var t := Print(v, style, cur); t != [] && !IsSpace(t[0]) && t[0] != CLOSE && t[0] != RBRACE
  {
    hide EscapeAll;
  }

  // ---- The round trip

  /** A value's text, whatever follows it that is not part of a number, reads back as the value
      and stops there. */
  lemma {:induction false} ParsePrinted(v: Json, style: Style, cur: Text, rest: Text, room: nat)
    requires Good(v) && BlankStyle(style, cur) && EndsNumber(rest) && Depth(v) <= room
    ensures ParseValue(Print(v, style, cur) + rest, room) == Ok((v, rest))
    decreases v, 0
  {
    var t := Print(v, style, cur) + rest;
    PrintStarts(v, style, cur);
    assert SkipSpace(t) == t;
    match v
    case Null => LiteralReads(NULL, rest, v);
    case Bool(b) => LiteralReads(if b then TRUE else FALSE, rest, v);
    case Num(n) => NumberReads(n, rest, room);
    case Str(cs) => StringReads(cs, rest, room);
    case Arr(es) => ArrayReads(es, style, cur, rest, room);
    case Obj(ms) => ObjectReads(ms, style, cur, rest, room);
  }

  lemma LiteralReads(word: Text, rest: Text, v: Json)
    ensures Literal(word + rest, word, v) == Ok((v, rest))
  {
  }

  lemma NumberReads(n: Numeral, rest: Text, room: nat)
    requires NumeralOk(n) && EndsNumber(rest)
    ensures ParseValue(NumeralText(n) + rest, room) == Ok((Num(n), rest))
  {
    var t := NumeralText(n) + rest;
    ParseNumeral(n, rest);
    assert t[0] == 0x2D || IsDigit(t[0]);
    assert SkipSpace(t) == t;
  }

  lemma StringReads(cs: seq<Char>, rest: Text, room: nat)
    requires Chars(cs) && Paired(cs)
    ensures ParseValue(Quote(cs) + rest, room) == Ok((Str(cs), rest))
  {
    hide SkipSpace, EscapeAll, ParseChars, ParseElems, ParseMembers, ParseNumber, Literal;
    var body := EscapeAll(cs) + [QUOTE] + rest;
    assert Quote(cs) + rest == [QUOTE] + body;
    NotSpace(QUOTE, body);
    ParseQuoted(cs, rest);
  }

  lemma {:induction false} ArrayReads(es: Elems, style: Style, cur: Text, rest: Text, room: nat)
    requires GoodElems(es) && BlankStyle(style, cur) && 1 + ElemsDepth(es) <= room
    ensures ParseValue(Print(Arr(es), style, cur) + rest, room) == Ok((Arr(es), rest))
    decreases es, 2
  {
    hide PrintElems, ParseElems, Gap;
    var t := Print(Arr(es), style, cur) + rest;
    if es.NoElems? {
      assert t == [OPEN] + ([CLOSE] + rest);
      assert SkipSpace(t) == t && SkipSpace(t[1..]) == t[1..];
    } else {
      var body := PrintElems(es, style, cur) + (Gap(style, cur) + ([CLOSE] + rest));
      assert t == [OPEN] + body;
      ElemsRead(es, style, cur, rest, room - 1);
      assert SkipSpace(t) == t && t[1..] == body;
    }
  }

  /** The elements' text, with its closing bracket, after whatever space is skipped first. */
  lemma {:induction false} ElemsRead(es: Elems, style: Style, cur: Text, rest: Text, room: nat)
    requires es.Elem? && GoodElems(es) && BlankStyle(style, cur) && ElemsDepth(es) <= room
    ensures var u := SkipSpace(PrintElems(es, style, cur) + (Gap(style, cur) + ([CLOSE] + rest)));
      u != [] && u[0] != CLOSE && ParseElems(u, room) == Ok((es, rest))
    decreases es, 1
  {
    hide Print, ParseValue, ParseElems, SkipSpace, Gap, Inner, PrintElems, BlankStyle, Blank, EndsNumber, Good;
    var inner := Inner(style, cur);
    var value, gap, end := Print(es.head, style, inner), Gap(style, inner), Gap(style, cur) + ([CLOSE] + rest);
    var after := (if es.tail.NoElems? then [] else [COMMA]) + PrintElems(es.tail, style, cur) + end;
    GapIsBlank(style, cur);
    GapIsBlank(style, inner);
    ElemsText(es, style, cur, end);
    SkipBlank(gap, value + after);
    StartsLikeValue(es.head, style, inner, after);
    if es.tail.NoElems? {
      NoElemsText(style, cur);
      assert after == end;
      AfterGap(Gap(style, cur), CLOSE, rest);
      ParsePrinted(es.head, style, inner, after, room);
      LastElem(value + after, es.head, after, rest, room);
    } else {
      var more := PrintElems(es.tail, style, cur) + end;
      assert after == [] + ([COMMA] + more);
      AfterGap([], COMMA, more);
      ParsePrinted(es.head, style, inner, after, room);
      ElemsRead(es.tail, style, cur, rest, room);
      ElemsSkip(more, room);
      MoreElems(value + after, es.head, after, more, es.tail, rest, room);
    }
  }

  lemma LastElem(u: Text, v: Json, after: Text, rest: Text, room: nat)
    requires ParseValue(u, room) == Ok((v, after)) && SkipSpace(after) == [CLOSE] + rest
    ensures ParseElems(u, room) == Ok((Elem(v, NoElems), rest))
  {
    hide ParseValue, SkipSpace;
  }

  lemma MoreElems(u: Text, v: Json, after: Text, more: Text, tail: Elems, rest: Text, room: nat)
    requires ParseValue(u, room) == Ok((v, after)) && SkipSpace(after) == [COMMA] + more
    requires ParseElems(more, room) == Ok((tail, rest))
    ensures ParseElems(u, room) == Ok((Elem(v, tail), rest))
  {
    hide ParseValue, SkipSpace;
    assert ([COMMA] + more)[1..] == more;
  }

  /** Space before elements changes nothing. */
  lemma ElemsSkip(s: Text, room: nat)
    ensures ParseElems(SkipSpace(s), room) == ParseElems(s, room)
  {
    SkipTwice(s);
  }

  lemma {:induction false} SkipTwice(s: Text)
    ensures SkipSpace(SkipSpace(s)) == SkipSpace(s)
  {
    if s != [] && IsSpace(s[0]) { SkipTwice(s[1..]); }
  }

  lemma NoElemsText(style: Style, cur: Text)
    ensures PrintElems(NoElems, style, cur) == []
  {
  }

  lemma ElemsText(es: Elems, style: Style, cur: Text, rest: Text)
    requires es.Elem?
    ensures PrintElems(es, style, cur) + rest ==
      Gap(style, Inner(style, cur)) + (Print(es.head, style, Inner(style, cur))
        + ((if es.tail.NoElems? then [] else [COMMA]) + PrintElems(es.tail, style, cur) + rest))
  {
    hide Print, Gap, Inner;
    var comma := if es.tail.NoElems? then [] else [COMMA];
    Regroup(Gap(style, Inner(style, cur)), Print(es.head, style, Inner(style, cur)), comma,
            PrintElems(es.tail, style, cur), rest);
  }

  lemma Regroup(a: Text, b: Text, c: Text, d: Text, e: Text)
    ensures a + b + c + d + e == a + (b + (c + d + e))
  {
  }

  lemma StartsLikeValue(v: Json, style: Style, cur: Text, after: Text)
    requires Good(v)
    ensures var t := Print(v, style, cur) + after;
      t != [] && t[0] != CLOSE && t[0] != RBRACE && SkipSpace(t) == t
  {
    PrintStarts(v, style, cur);
  }

  /** Past a gap stands the mark. */
  lemma AfterGap(gap: Text, mark: Char, rest: Text)
    requires Blank(gap) && !IsSpace(mark) && !IsDigit(mark) && mark != 0x2E && mark != 0x65 && mark != 0x45
    ensures SkipSpace(gap + ([mark] + rest)) == [mark] + rest
    ensures EndsNumber(gap + ([mark] + rest))
  {
    SkipBlank(gap, [mark] + rest);
  }

  lemma {:induction false} ObjectReads(ms: Members, style: Style, cur: Text, rest: Text, room: nat)
    requires GoodMembers(ms) && BlankStyle(style, cur) && 1 + MembersDepth(ms) <= room
    ensures ParseValue(Print(Obj(ms), style, cur) + rest, room) == Ok((Obj(ms), rest))
    decreases ms, 2
  {
    hide PrintMembers, ParseMembers, Gap, SetAll;
    var t := Print(Obj(ms), style, cur) + rest;
    if ms.NoMembers? {
      assert t == [LBRACE] + ([RBRACE] + rest);
      assert SkipSpace(t) == t && SkipSpace(t[1..]) == t[1..];
    } else {
      var body := PrintMembers(ms, style, cur) + (Gap(style, cur) + ([RBRACE] + rest));
      assert t == [LBRACE] + body;
      MembersRead(ms, style, cur, rest, room - 1);
      SetDistinct(ms);
      assert SkipSpace(t) == t && t[1..] == body;
    }
  }

  lemma {:induction false} MembersRead(ms: Members, style: Style, cur: Text, rest: Text, room: nat)
    requires ms.Member? && GoodMembers(ms) && BlankStyle(style, cur) && MembersDepth(ms) <= room
    ensures var u := SkipSpace(PrintMembers(ms, style, cur) + (Gap(style, cur) + ([RBRACE] + rest)));
      u != [] && u[0] != RBRACE && ParseMembers(u, room) == Ok((ms, rest))
    decreases ms, 1
  {
    hide Print, ParseValue, ParseMember, ParseMembers, SkipSpace, Gap, Inner, PrintMembers, Colon, Quote, ParseChars,
      EscapeAll, BlankStyle, Blank, EndsNumber, Good, MemberText;
    var inner := Inner(style, cur);
    var value, gap, end := Print(ms.value, style, inner), Gap(style, inner), Gap(style, cur) + ([RBRACE] + rest);
    var after := (if ms.rest.NoMembers? then [] else [COMMA]) + PrintMembers(ms.rest, style, cur) + end;
    var u := MemberText(ms.key, style, value + after);
    GapIsBlank(style, cur);
    GapIsBlank(style, inner);
    MembersText(ms, style, cur, end);
    SkipBlank(gap, u);
    if ms.rest.NoMembers? {
      NoMembersText(style, cur);
      assert after == end;
      AfterGap(Gap(style, cur), RBRACE, rest);
      ParsePrinted(ms.value, style, inner, after, room);
      MemberReads(ms.key, ms.value, style, value + after, after, room);
      LastMember(u, ms.key, ms.value, after, rest, room);
    } else {
      var more := PrintMembers(ms.rest, style, cur) + end;
      assert after == [] + ([COMMA] + more);
      AfterGap([], COMMA, more);
      ParsePrinted(ms.value, style, inner, after, room);
      MemberReads(ms.key, ms.value, style, value + after, after, room);
      MembersRead(ms.rest, style, cur, rest, room);
      MembersSkip(more, room);
      MoreMembers(u, ms.key, ms.value, after, more, ms.rest, rest, room);
    }
  }

  lemma LastMember(u: Text, k: seq<Char>, v: Json, after: Text, rest: Text, room: nat)
    requires ParseMember(u, room) == Ok(((k, v), after)) && SkipSpace(after) == [RBRACE] + rest
    ensures ParseMembers(u, room) == Ok((Member(k, v, NoMembers), rest))
  {
    hide ParseMember, SkipSpace;
  }

  lemma MoreMembers(u: Text, k: seq<Char>, v: Json, after: Text, more: Text, ms: Members, rest: Text, room: nat)
    requires ParseMember(u, room) == Ok(((k, v), after)) && SkipSpace(after) == [COMMA] + more
    requires ParseMembers(more, room) == Ok((ms, rest))
    ensures ParseMembers(u, room) == Ok((Member(k, v, ms), rest))
  {
    hide ParseMember, SkipSpace;
    assert ([COMMA] + more)[1..] == more;
  }

  /** A key, its colon, and what follows. */
  function MemberText(k: seq<Char>, style: Style, t: Text): Text {
    [QUOTE] + (EscapeAll(k) + [QUOTE] + (Colon(style) + t))
  }

  lemma MemberReads(k: seq<Char>, v: Json, style: Style, t: Text, after: Text, room: nat)
    requires Chars(k) && Paired(k) && ParseValue(t, room) == Ok((v, after))
    ensures var s := MemberText(k, style, t);
      SkipSpace(s) == s && s != [] && s[0] == QUOTE && ParseMember(s, room) == Ok(((k, v), after))
  {
    hide ParseValue, SkipSpace, ParseChars, EscapeAll, Colon;
    NotSpace(QUOTE, EscapeAll(k) + [QUOTE] + (Colon(style) + t));
    ParseQuoted(k, Colon(style) + t);
    ColonThen(style, t, room);
  }

  lemma NotSpace(c: Char, t: Text)
    requires !IsSpace(c)
    ensures SkipSpace([c] + t) == [c] + t && ([c] + t)[1..] == t
  {
  }

  lemma MembersSkip(s: Text, room: nat)
    ensures ParseMembers(SkipSpace(s), room) == ParseMembers(s, room)
  {
    SkipTwice(s);
    assert ParseMember(SkipSpace(s), room) == ParseMember(s, room);
  }

  lemma NoMembersText(style: Style, cur: Text)
    ensures PrintMembers(NoMembers, style, cur) == []
  {
  }

  lemma MembersText(ms: Members, style: Style, cur: Text, rest: Text)
    requires ms.Member?
    ensures PrintMembers(ms, style, cur) + rest ==
      Gap(style, Inner(style, cur)) + MemberText(ms.key, style, Print(ms.value, style, Inner(style, cur))
        + ((if ms.rest.NoMembers? then [] else [COMMA]) + PrintMembers(ms.rest, style, cur) + rest))
  {
    hide Print, Gap, Inner, EscapeAll, Colon;
  }

  /** Past the colon, with or without its space, stands the value. */
  lemma ColonThen(style: Style, s: Text, room: nat)
    ensures var u := SkipSpace(Colon(style) + s);
      u != [] && u[0] == COLON && ParseValue(u[1..], room) == ParseValue(s, room)
  {
    var t := Colon(style) + s;
    assert SkipSpace(t) == t;
    if style.Pretty? {
      assert t[1..] == [SPACE] + s;
      ValueAfterGap([SPACE], s, room);
    } else {
      assert t[1..] == s;
    }
  }

  lemma {:induction false} SetFresh(ms: Members, k: seq<Char>, v: Json)
    requires k !in KeysOf(ms)
    ensures SetMember(ms, k, v) == Join(ms, Member(k, v, NoMembers))
    ensures KeysOf(SetMember(ms, k, v)) == KeysOf(ms) + {k}
  {
    if ms.Member? { SetFresh(ms.rest, k, v); }
  }

  function Join(a: Members, b: Members): Members {
    match a
    case NoMembers => b
    case Member(k, v, rest) => Member(k, v, Join(rest, b))
  }

  lemma {:induction false} JoinStep(a: Members, k: seq<Char>, v: Json, rest: Members)
    ensures Join(Join(a, Member(k, v, NoMembers)), rest) == Join(a, Member(k, v, rest))
  {
    if a.Member? { JoinStep(a.rest, k, v, rest); }
  }

  lemma {:induction false} SetAllDistinct(ms: Members, more: Members)
    requires GoodMembers(more) && KeysOf(ms) !! KeysOf(more)
    ensures SetAll(ms, more) == Join(ms, more)
    decreases more
  {
    match more
    case NoMembers => JoinNothing(ms);
    case Member(k, v, rest) =>
      SetFresh(ms, k, v);
      SetAllDistinct(SetMember(ms, k, v), rest);
      JoinStep(ms, k, v, rest);
  }

  lemma {:induction false} JoinNothing(ms: Members)
    ensures Join(ms, NoMembers) == ms
  {
    if ms.Member? { JoinNothing(ms.rest); }
  }

  /** Members set one by one under distinct keys are the members in order. */
  lemma SetDistinct(ms: Members)
    requires GoodMembers(ms)
    ensures SetAll(NoMembers, ms) == ms
  {
    SetAllDistinct(NoMembers, ms);
  }

  /** Parsing undoes printing, compact or indented with space. */
  lemma ParseUndoesPrint(v: Json, style: Style, maxDepth: nat)
    requires Good(v) && BlankStyle(style, []) && Depth(v) <= maxDepth
    ensures Parse(Print(v, style, []), maxDepth) == Ok(v)
  {
    ParsePrinted(v, style, [], [], maxDepth);
    assert Print(v, style, []) + [] == Print(v, style, []);
  }

  /** Printing tells values apart. */
  lemma PrintIsInjective(v: Json, w: Json, style: Style)
    requires Good(v) && Good(w) && BlankStyle(style, [])
    ensures Print(v, style, []) == Print(w, style, []) <==> v == w
  {
    var room := Max(Depth(v), Depth(w));
    ParseUndoesPrint(v, style, room);
    ParseUndoesPrint(w, style, room);
  }
}
