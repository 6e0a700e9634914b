/** The parser with its cursor: one pass over the characters. */
module JsonParser {
  import opened Wrappers
  import opened Wtf8
  import opened JsonText
  import opened Json

  /** An array's elements as the list they were pushed on. */
  function AsElems(vs: seq<Json>): Elems {
    if vs == [] then NoElems else Elem(vs[0], AsElems(vs[1..]))
  }

  function Onto(vs: seq<Json>, es: Elems): Elems {
    if vs == [] then es else Elem(vs[0], Onto(vs[1..], es))
  }

  lemma {:induction false} OntoPush(vs: seq<Json>, v: Json, es: Elems)
    ensures Onto(vs + [v], es) == Onto(vs, Elem(v, es))
  {
    if vs != [] {
      assert (vs + [v])[1..] == vs[1..] + [v];
      OntoPush(vs[1..], v, es);
    }
  }

  lemma {:induction false} OntoNothing(vs: seq<Json>)
    ensures Onto(vs, NoElems) == AsElems(vs)
  {
    if vs != [] { OntoNothing(vs[1..]); }
  }

  /** What the whole loop yields, given what was read before and what the rest yields. */
  ghost function ElemsAfter(vs: seq<Json>, r: Result<(Elems, Text)>): Result<(Elems, Text)> {
    if r.Err? then Err else Ok((Onto(vs, r.value.0), r.value.1))
  }

  /** The same for members, set on the object as they are read. */
  ghost function SetAfter(obj: Members, r: Result<(Members, Text)>): Result<(Members, Text)> {
    if r.Err? then Err else Ok((SetAll(obj, r.value.0), r.value.1))
  }

  ghost function CharsAfter(out: seq<Char>, r: Result<(seq<Char>, Text)>): Result<(seq<Char>, Text)> {
    if r.Err? then Err else Ok((out + r.value.0, r.value.1))
  }

  /** A method's answer and where it left the cursor, against the text before it. */
  ghost predicate Agrees<T(!new)>(r: Result<T>, rest: Text, spec: Result<(T, Text)>) {
    (r.Err? <==> spec.Err?) && (r.Ok? ==> spec.value == (r.value, rest))
  }

  class Parser {
    const c: Text
    var pos: nat

    constructor (c: Text)
      ensures this.c == c && pos == 0
    {
      this.c := c;
      pos := 0;
    }

    ghost predicate Valid()
      reads this
    {
      pos <= |c|
    }

    ghost function Rest(): Text
      reads this
      requires Valid()
    {
      c[pos..]
    }

    /** `skip_ws`. */
    method SkipWs()
      requires Valid()
      modifies this
      ensures Valid() && Rest() == SkipSpace(old(Rest())) && old(pos) <= pos
    {
      while pos < |c| && IsSpace(c[pos])
        invariant Valid() && SkipSpace(Rest()) == SkipSpace(old(Rest())) && old(pos) <= pos
      {
        pos := pos + 1;
      }
    }

    /** `c.get(pos) == Some(ch)`. */
    predicate At(ch: Char)
      reads this
    {
      pos < |c| && c[pos] == ch
    }

    /** `lit`. */
    method Lit(word: Text, v: Json) returns (r: Result<Json>)
      requires Valid()
      modifies this
      ensures Valid() && Agrees(r, Rest(), Literal(old(Rest()), word, v))
      ensures pos == old(pos) + if r.Ok? then |word| else 0
    {
      if pos + |word| <= |c| && c[pos..pos + |word|] == word {
        assert Rest()[..|word|] == word;
        pos := pos + |word|;
        return Ok(v);
      }
      WordHere(word);
      r := Err;
    }

    lemma WordHere(word: Text)
      requires Valid()
      ensures word <= Rest() <==> pos + |word| <= |c| && c[pos..pos + |word|] == word
    {
      if word <= Rest() { assert c[pos..pos + |word|] == Rest()[..|word|]; }
    }

    /** `parse_string`, at the opening quote. */
    method ParseString() returns (r: Result<seq<Char>>)
      requires Valid() && At(QUOTE)
      modifies this
      ensures Valid() && Agrees(r, Rest(), ParseChars(old(Rest())[1..])) && old(pos) < pos
    {
      hide ParseChar;
      ghost var goal := ParseChars(Rest()[1..]);
      pos := pos + 1;
      var out: seq<Char> := [];
      CharsNothing(ParseChars(Rest()));
      while true
        invariant Valid() && old(pos) < pos && CharsAfter(out, ParseChars(Rest())) == goal
        decreases |c| - pos
      {
        if pos == |c| { return Err; }
        if c[pos] == QUOTE {
          assert out + [] == out;
          pos := pos + 1;
          return Ok(out);
        }
        ghost var before := Rest();
        var ch := OneChar();
        if ch.Err? { return Err; }
        CharsStep(out, before, ch.value, Rest());
        out := out + [ch.value];
      }
    }

    lemma CharsNothing(r: Result<(seq<Char>, Text)>)
      ensures CharsAfter([], r) == r
    {
      if r.Ok? { assert [] + r.value.0 == r.value.0; }
    }

    lemma CharsStep(out: seq<Char>, before: Text, ch: Char, after: Text)
      requires before != [] && before[0] != QUOTE && ParseChar(before) == Ok((ch, after))
      ensures CharsAfter(out, ParseChars(before)) == CharsAfter(out + [ch], ParseChars(after))
    {
      var rest := ParseChars(after);
      if rest.Ok? { assert out + ([ch] + rest.value.0) == out + [ch] + rest.value.0; }
    }

    /** One round of the loop of `parse_string`. */
    method OneChar() returns (r: Result<Char>)
      requires Valid() && pos < |c| && c[pos] != QUOTE
      modifies this
      ensures Valid() && old(pos) < pos && Agrees(r, Rest(), ParseChar(old(Rest())))
    {
      hide ParseHex4;
      ghost var t := Rest();
      if c[pos] != BACKSLASH {
        pos := pos + 1;
        return Ok(c[pos - 1]);
      }
      pos := pos + 1;
      if pos == |c| { return Err; }
      if c[pos] != 0x75 {
        var ch := Unescape(c[pos]);
        if ch.None? { return Err; }
        pos := pos + 1;
        return Ok(ch.value);
      }
      var hi := ParseHex4(c[pos + 1..]);
      assert c[pos + 1..] == t[2..];
      if hi.None? { return Err; }
      HexIsFour(c[pos + 1..]);
      pos := pos + 4;
      assert c[pos + 1..] == t[6..];
      if IsHigh(hi.value) && pos + 2 < |c| && c[pos + 1] == BACKSLASH && c[pos + 2] == 0x75 {
        var lo := ParseHex4(c[pos + 3..]);
        assert c[pos + 3..] == t[6..][2..];
        if lo.Some? && IsLow(lo.value) {
          HexIsFour(c[pos + 3..]);
          pos := pos + 7;
          assert Rest() == t[12..];
          return Ok(Astral(hi.value, lo.value));
        }
      }
      assert LowEscape(t[6..]).None? || !IsHigh(hi.value);
      pos := pos + 1;
      r := Ok(hi.value);
    }

    lemma HexIsFour(t: Text)
      ensures ParseHex4(t).Some? ==> |t| >= 4
    {
    }

    /** The digits at the cursor. */
    method Digits() returns (t: Text)
      requires Valid()
      modifies this
      ensures Valid() && old(pos) <= pos && t == old(Rest())[..Run(old(Rest()))]
        && Rest() == old(Rest())[Run(old(Rest()))..]
    {
      ghost var all := Rest();
      var start := pos;
      while pos < |c| && IsDigit(c[pos])
        invariant Valid() && start <= pos && Run(all) == (pos - start) + Run(Rest())
      {
        pos := pos + 1;
      }
      t := c[start..pos];
    }

    /** The number branch of `parse_value`. */
    method ParseNum() returns (r: Result<Numeral>)
      requires Valid()
      modifies this
      ensures Valid() && old(pos) <= pos && Agrees(r, Rest(), ParseNumber(old(Rest())))
      ensures r.Ok? ==> old(pos) < pos
    {
      hide Run, ParseSign, ParseWhole, ParseFrac, ParseExp;
      var negative := Sign();
      var whole := Whole();
      if whole.Err? { return Err; }
      var frac := Frac();
      if frac.Err? { return Err; }
      var exp := Exp();
      if exp.Err? { return Err; }
      r := Ok(Numeral(negative, whole.value, frac.value, exp.value));
    }

    method Sign() returns (negative: bool)
      requires Valid()
      modifies this
      ensures Valid() && old(pos) <= pos && ParseSign(old(Rest())) == (negative, Rest())
    {
      negative := At(0x2D);
      if negative { pos := pos + 1; }
    }

    method Whole() returns (r: Result<Text>)
      requires Valid()
      modifies this
      ensures Valid() && old(pos) <= pos && Agrees(r, Rest(), ParseWhole(old(Rest()))) && (r.Ok? ==> old(pos) < pos)
    {
      hide Run;
      ghost var t := Rest();
      if At(0x30) {
        pos := pos + 1;
        assert t[..1] == [0x30] && Rest() == t[1..];
        return Ok([0x30]);
      }
      var digits := Digits();
      r := if digits == [] then Err else Ok(digits);
    }

    method Frac() returns (r: Result<Option<Text>>)
      requires Valid()
      modifies this
      ensures Valid() && old(pos) <= pos && Agrees(r, Rest(), ParseFrac(old(Rest())))
    {
      hide Run;
      ghost var t := Rest();
      if !At(0x2E) { return Ok(None); }
      pos := pos + 1;
      assert Rest() == t[1..];
      var digits := Digits();
      r := if digits == [] then Err else Ok(Some(digits));
    }

    method Exp() returns (r: Result<Option<(Text, Text)>>)
      requires Valid()
      modifies this
      ensures Valid() && old(pos) <= pos && Agrees(r, Rest(), ParseExp(old(Rest())))
    {
      hide Run;
      ghost var t := Rest();
      if !At(0x65) && !At(0x45) { return Ok(None); }
      var start := pos;
      pos := pos + 1;
      if At(0x2B) || At(0x2D) { pos := pos + 1; }
      var mark := c[start..pos];
      assert Rest() == t[pos - start..] && mark == t[..pos - start];
      var digits := Digits();
      r := if digits == [] then Err else Ok(Some((mark, digits)));
    }

    /** Space before a value changes nothing. */
    lemma ValueSkip(t: Text, room: nat)
      ensures ParseValue(SkipSpace(t), room) == ParseValue(t, room) && SkipSpace(SkipSpace(t)) == SkipSpace(t)
    {
      SkipTwice(t);
    }

    /** `parse_value`. */
    method Value(room: nat) returns (r: Result<Json>)
      requires Valid()
      modifies this
      ensures Valid() && old(pos) <= pos && Agrees(r, Rest(), ParseValue(old(Rest()), room))
      ensures r.Ok? ==> old(pos) < pos
      decreases |c| - pos, 1
    {
      hide ParseChars, ParseNumber, Literal, SkipSpace, ParseElems, ParseMembers;
      ValueSkip(Rest(), room);
      SkipWs();
      if pos == |c| { return Err; }
      var ch := c[pos];
      if (ch == OPEN || ch == LBRACE) && room == 0 { return Err; }
      if ch == NULL[0] {
        r := Lit(NULL, Null);
      } else if ch == TRUE[0] {
        r := Lit(TRUE, Bool(true));
      } else if ch == FALSE[0] {
        r := Lit(FALSE, Bool(false));
      } else if ch == QUOTE {
        var s := ParseString();
        r := if s.Err? then Err else Ok(Str(s.value));
      } else if ch == OPEN {
        r := Array(room);
      } else if ch == LBRACE {
        r := Object(room);
      } else if ch == 0x2D || IsDigit(ch) {
        var n := ParseNum();
        r := if n.Err? then Err else Ok(Num(n.value));
      } else {
        r := Err;
      }
    }

    /** The array branch of `parse_value`. */
    method Array(room: nat) returns (r: Result<Json>)
      requires Valid() && At(OPEN) && room > 0 && SkipSpace(Rest()) == Rest()
      modifies this
      ensures Valid() && old(pos) < pos && Agrees(r, Rest(), ParseValue(old(Rest()), room))
      decreases |c| - pos, 0
    {
      hide ParseValue, ParseElems, SkipSpace, AsElems, Onto, ElemsAfter;
      ghost var t := Rest();
      ArrayOf(t, room);
      pos := pos + 1;
      assert Rest() == t[1..];
      SkipWs();
      if At(CLOSE) {
        pos := pos + 1;
        return Ok(Arr(NoElems));
      }
      var es := ElemsFrom(room - 1);
      r := if es.Err? then Err else Ok(Arr(es.value));
    }

    /** Its loop. */
    method ElemsFrom(room: nat) returns (r: Result<Elems>)
      requires Valid()
      modifies this
      ensures Valid() && old(pos) <= pos && Agrees(r, Rest(), ParseElems(old(Rest()), room))
      decreases |c| - pos, 2
    {
      hide ParseValue, ParseElems, SkipSpace, AsElems, Onto, ElemsAfter;
      ghost var goal := ParseElems(Rest(), room);
      var elems: seq<Json> := [];
      ElemsAfterNothing(goal);
      while true
        invariant Valid() && old(pos) <= pos && (elems != [] ==> old(pos) < pos)
        invariant ElemsAfter(elems, ParseElems(Rest(), room)) == goal
        decreases |c| - pos
      {
        ElemsStep(Rest(), room);
        ElemsAfterErr(elems);
        var v := Value(room);
        if v.Err? { return Err; }
        SkipWs();
        if At(COMMA) {
          pos := pos + 1;
          OntoNext(elems, v.value, ParseElems(Rest(), room));
          elems := elems + [v.value];
        } else if At(CLOSE) {
          pos := pos + 1;
          ElemsAfterLast(elems, v.value, Rest());
          return Ok(AsElems(elems + [v.value]));
        } else {
          return Err;
        }
      }
    }

    lemma ElemsAfterNothing(r: Result<(Elems, Text)>)
      ensures ElemsAfter([], r) == r
    {
    }

    lemma ElemsAfterErr(vs: seq<Json>)
      ensures ElemsAfter(vs, Err) == Err
    {
    }

    lemma ElemsAfterLast(vs: seq<Json>, v: Json, rest: Text)
      ensures ElemsAfter(vs, Ok((Elem(v, NoElems), rest))) == Ok((AsElems(vs + [v]), rest))
    {
      OntoPush(vs, v, NoElems);
      OntoNothing(vs + [v]);
    }

    lemma ArrayOf(t: Text, room: nat)
      requires t != [] && t[0] == OPEN && room > 0 && SkipSpace(t) == t
      ensures var u := SkipSpace(t[1..]); var es := ParseElems(u, room - 1);
        ParseValue(t, room) ==
          if u != [] && u[0] == CLOSE then Ok((Arr(NoElems), u[1..]))
          else if es.Err? then Err else Ok((Arr(es.value.0), es.value.1))
    {
      hide SkipSpace, ParseElems;
    }

    /** One round of the loop over elements. */
    lemma ElemsStep(s: Text, room: nat)
      ensures var v := ParseValue(s, room);
        && (v.Err? ==> ParseElems(s, room).Err?)
        && (v.Ok? ==> var t := SkipSpace(v.value.1);
              && (t == [] || (t[0] != CLOSE && t[0] != COMMA) ==> ParseElems(s, room).Err?)
              && (t != [] && t[0] == CLOSE ==> ParseElems(s, room) == Ok((Elem(v.value.0, NoElems), t[1..])))
              && (t != [] && t[0] == COMMA ==>
                    ParseElems(s, room) == ElemsAfter([v.value.0], ParseElems(t[1..], room))))
    {
      var v := ParseValue(s, room);
      if v.Ok? {
        forall es ensures Onto([v.value.0], es) == Elem(v.value.0, es) { assert [v.value.0][1..] == []; }
      }
    }

    lemma OntoNext(vs: seq<Json>, v: Json, r: Result<(Elems, Text)>)
      ensures ElemsAfter(vs, ElemsAfter([v], r)) == ElemsAfter(vs + [v], r)
    {
      if r.Ok? {
        OntoPush(vs, v, r.value.0);
        assert Onto([v], r.value.0) == Elem(v, r.value.0);
      }
    }

    /** The object branch of `parse_value`. */
    method Object(room: nat) returns (r: Result<Json>)
      requires Valid() && At(LBRACE) && room > 0 && SkipSpace(Rest()) == Rest()
      modifies this
      ensures Valid() && old(pos) < pos && Agrees(r, Rest(), ParseValue(old(Rest()), room))
      decreases |c| - pos, 0
    {
      hide ParseValue, ParseMembers, SkipSpace, SetAfter;
      ghost var t := Rest();
      ObjectOf(t, room);
      pos := pos + 1;
      assert Rest() == t[1..];
      SkipWs();
      if At(RBRACE) {
        pos := pos + 1;
        return Ok(Obj(NoMembers));
      }
      var ms := MembersFrom(room - 1);
      r := if ms.Err? then Err else Ok(Obj(ms.value));
    }

    /** Its loop, setting each member on the object as it is read. */
    method MembersFrom(room: nat) returns (r: Result<Members>)
      requires Valid()
      modifies this
      ensures Valid() && old(pos) <= pos && Agrees(r, Rest(), SetAfter(NoMembers, ParseMembers(old(Rest()), room)))
      decreases |c| - pos, 3
    {
      hide ParseMember, ParseMembers, SkipSpace, SetAfter, SetAll;
      ghost var goal := SetAfter(NoMembers, ParseMembers(Rest(), room));
      var obj := NoMembers;
      while true
        invariant Valid() && old(pos) <= pos && SetAfter(obj, ParseMembers(Rest(), room)) == goal
        decreases |c| - pos
      {
        MembersStep(Rest(), room);
        SetAfterErr(obj);
        var m := OneMember(room);
        if m.Err? { return Err; }
        var (key, v) := m.value;
        SkipWs();
        if At(COMMA) {
          pos := pos + 1;
          SetAfterNext(obj, key, v, ParseMembers(Rest(), room));
          obj := SetMember(obj, key, v);
        } else if At(RBRACE) {
          pos := pos + 1;
          SetAfterLast(obj, key, v, Rest());
          return Ok(SetMember(obj, key, v));
        } else {
          return Err;
        }
      }
    }

    lemma SetAfterErr(obj: Members)
      ensures SetAfter(obj, Err) == Err
    {
    }

    lemma SetAfterNext(obj: Members, k: seq<Char>, v: Json, r: Result<(Members, Text)>)
      ensures SetAfter(obj, MembersAfter(k, v, r)) == SetAfter(SetMember(obj, k, v), r)
    {
    }

    lemma SetAfterLast(obj: Members, k: seq<Char>, v: Json, rest: Text)
      ensures SetAfter(obj, Ok((Member(k, v, NoMembers), rest))) == Ok((SetMember(obj, k, v), rest))
    {
      assert SetAll(SetMember(obj, k, v), NoMembers) == SetMember(obj, k, v);
    }

    lemma ObjectOf(t: Text, room: nat)
      requires t != [] && t[0] == LBRACE && room > 0 && SkipSpace(t) == t
      ensures var u := SkipSpace(t[1..]); var ms := SetAfter(NoMembers, ParseMembers(u, room - 1));
        ParseValue(t, room) ==
          if u != [] && u[0] == RBRACE then Ok((Obj(NoMembers), u[1..]))
          else if ms.Err? then Err else Ok((Obj(ms.value.0), ms.value.1))
    {
      hide SkipSpace, ParseMembers, SetAll;
    }

    /** `(k, v)` and then what the rest yields. */
    ghost function MembersAfter(k: seq<Char>, v: Json, r: Result<(Members, Text)>): Result<(Members, Text)> {
      if r.Err? then Err else Ok((Member(k, v, r.value.0), r.value.1))
    }

    /** One round of the loop over members. */
    lemma MembersStep(s: Text, room: nat)
      ensures var m := ParseMember(s, room);
        && (m.Err? ==> ParseMembers(s, room).Err?)
        && (m.Ok? ==> var t := SkipSpace(m.value.1); var (k, v) := m.value.0;
              && (t == [] || (t[0] != RBRACE && t[0] != COMMA) ==> ParseMembers(s, room).Err?)
              && (t != [] && t[0] == RBRACE ==> ParseMembers(s, room) == Ok((Member(k, v, NoMembers), t[1..])))
              && (t != [] && t[0] == COMMA ==> ParseMembers(s, room) == MembersAfter(k, v, ParseMembers(t[1..], room))))
    {
      hide ParseMember, SkipSpace;
    }

    /** A key, its colon and its value. */
    method OneMember(room: nat) returns (r: Result<(seq<Char>, Json)>)
      requires Valid()
      modifies this
      ensures Valid() && old(pos) <= pos && Agrees(r, Rest(), ParseMember(old(Rest()), room))
      ensures r.Ok? ==> old(pos) < pos
      decreases |c| - pos, 2
    {
      hide ParseChars, ParseValue, SkipSpace;
      SkipWs();
      if !At(QUOTE) { return Err; }
      var key := ParseString();
      if key.Err? { return Err; }
      SkipWs();
      if !At(COLON) { return Err; }
      ghost var u := Rest();
      pos := pos + 1;
      assert Rest() == u[1..];
      var v := Value(room);
      r := if v.Err? then Err else Ok((key.value, v.value));
    }

    /** `parse`. */
    method ParseAll(maxDepth: nat) returns (r: Result<Json>)
      requires pos == 0
      modifies this
      ensures r == Parse(c, maxDepth)
    {
      hide ParseValue, SkipSpace;
      assert Rest() == c;
      var v := Value(maxDepth);
      if v.Err? { return Err; }
      SkipWs();
      if pos != |c| { return Err; }
      r := v;
    }
  }
}
