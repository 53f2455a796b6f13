/** The indented text of a record is its compact text, laid out: a line for every element and member, four spaces a
    level, and a space after every colon. */
module JsonLayout {
  import opened CStrings
  import opened Decimal
  import opened JsonTree
  import opened JsonText

  /** A new line at a depth. */
  function Line(depth: nat): string {
    "\n" + seq(4 * depth, _ => ' ')
  }

  /** Lays out compact JSON text, one character after the other, at a depth. */
  function Laid(s: string, depth: nat): string
    decreases |s|
  {
    if s == "" then ""
    else if s[0] == '"' then "\"" + LaidString(s[1..], depth)
    else if (s[0] == '{' || s[0] == '[') && |s| > 1 && (s[1] == '}' || s[1] == ']') then s[..2] + Laid(s[2..], depth)
    else if s[0] == '{' || s[0] == '[' then [s[0]] + (Line(depth + 1) + Laid(s[1..], depth + 1))
    else if (s[0] == '}' || s[0] == ']') && depth > 0 then Line(depth - 1) + ([s[0]] + Laid(s[1..], depth - 1))
    else if s[0] == ',' then "," + (Line(depth) + Laid(s[1..], depth))
    else if s[0] == ':' then ": " + Laid(s[1..], depth)
    else [s[0]] + Laid(s[1..], depth)
  }

  /** Inside a string nothing is laid out, up to a quotation mark that is not escaped. */
  function LaidString(s: string, depth: nat): string
    decreases |s|
  {
    if s == "" then ""
    else if s[0] == '"' then "\"" + Laid(s[1..], depth)
    else if s[0] == '\\' && |s| > 1 then s[..2] + LaidString(s[2..], depth)
    else [s[0]] + LaidString(s[1..], depth)
  }

  predicate Ordinary(c: char) {
    c !in "{}[],:\"\\"
  }

  lemma {:induction false} OrdinaryLaid(t: string, rest: string, depth: nat)
    requires forall i :: 0 <= i < |t| ==> Ordinary(t[i])
    ensures Laid(t + rest, depth) == t + Laid(rest, depth)
    ensures LaidString(t + rest, depth) == t + LaidString(rest, depth)
    decreases |t|
  {
    if t == "" {
      assert t + rest == rest && t + Laid(rest, depth) == Laid(rest, depth);
      assert t + LaidString(rest, depth) == LaidString(rest, depth);
    } else {
      assert (t + rest)[0] == t[0] && (t + rest)[1..] == t[1..] + rest;
      OrdinaryLaid(t[1..], rest, depth);
      assert t == [t[0]] + t[1..];
      Assoc([t[0]], t[1..], Laid(rest, depth));
      Assoc([t[0]], t[1..], LaidString(rest, depth));
    }
  }

  lemma CharLaid(c: char, rest: string, depth: nat)
    ensures LaidString(EscapedChar(c) + rest, depth) == EscapedChar(c) + LaidString(rest, depth)
  {
    var t := EscapedChar(c);
    if |t| == 1 {
      assert (t + rest)[0] == c && (t + rest)[1..] == rest;
    } else {
      var s := t + rest;
      assert s[0] == '\\' && s[..2] == t[..2] && s[2..] == t[2..] + rest;
      OrdinaryLaid(t[2..], rest, depth);
      Assoc(t[..2], t[2..], LaidString(rest, depth));
      assert t == t[..2] + t[2..];
    }
  }

  lemma {:induction false} CharsLaid(x: string, rest: string, depth: nat)
    ensures LaidString(Escaped(x) + ("\"" + rest), depth) == Escaped(x) + ("\"" + Laid(rest, depth))
  {
    if x == "" {
      assert "" + ("\"" + rest) == "\"" + rest && ("\"" + rest)[1..] == rest;
      assert "" + ("\"" + Laid(rest, depth)) == "\"" + Laid(rest, depth);
    } else {
      var c, more := EscapedChar(x[0]), Escaped(x[1..]);
      Assoc(c, more, "\"" + rest);
      CharLaid(x[0], more + ("\"" + rest), depth);
      CharsLaid(x[1..], rest, depth);
      Assoc(c, more, "\"" + Laid(rest, depth));
    }
  }

  lemma QuotedLaid(x: string, rest: string, depth: nat)
    ensures Laid(Quoted(x) + rest, depth) == Quoted(x) + Laid(rest, depth)
  {
    var body := Escaped(x);
    Assoc("\"" + body, "\"", rest);
    Assoc("\"", body, "\"" + rest);
    assert ("\"" + (body + ("\"" + rest)))[1..] == body + ("\"" + rest);
    CharsLaid(x, rest, depth);
    Assoc("\"" + body, "\"", Laid(rest, depth));
    Assoc("\"", body, "\"" + Laid(rest, depth));
  }

  lemma NumberOrdinary(indent: nat, v: Json)
    requires v.Number()
    ensures Text(Compact, indent, v) == Text(Pretty, indent, v)
    ensures forall i :: 0 <= i < |Text(Compact, indent, v)| ==> Ordinary(Text(Compact, indent, v)[i])
  {
    JsonText.NumberText(Compact, indent, v);
    assert forall c :: IsDigit(c) ==> Ordinary(c);
  }

  lemma ScalarLaid(v: Json, rest: string, depth: nat)
    requires v.Scalar()
    ensures Laid(Text(Compact, depth, v) + rest, depth) == Text(Pretty, depth, v) + Laid(rest, depth)
  {
    match v
    case Str(x) => QuotedLaid(x, rest, depth);
    case Int(_) =>
      NumberOrdinary(depth, v);
      OrdinaryLaid(Text(Compact, depth, v), rest, depth);
    case Dec(_) =>
      NumberOrdinary(depth, v);
      OrdinaryLaid(Text(Compact, depth, v), rest, depth);
    case _ =>
      OrdinaryLaid(Text(Compact, depth, v), rest, depth);
  }

  lemma {:induction false} SpacesAre(n: nat)
    ensures Spaces(n) == seq(n, _ => ' ')
  {
    if n > 0 {
      SpacesAre(n - 1);
    }
  }

  lemma LineIs(depth: nat)
    ensures LineStart(Pretty, depth) == Line(depth) && LineStart(Compact, depth) == ""
  {
    SpacesAre(4 * depth);
  }

  lemma EmptyLaid(open: char, close: char, rest: string, depth: nat)
    requires (open == '[' && close == ']') || (open == '{' && close == '}')
    ensures Laid([open, close] + rest, depth) == [open, close] + Laid(rest, depth)
  {
    var s := [open, close] + rest;
    assert s[..2] == [open, close] && s[2..] == rest;
  }

  /** A container with something in it. */
  lemma FullLaid(open: char, close: char, body: string, laid: string, rest: string, depth: nat)
    requires (open == '[' && close == ']') || (open == '{' && close == '}')
    requires body != "" && body[0] !in "]}"
    requires Line(depth + 1) + Laid(body + ([close] + rest), depth + 1) == laid + Laid([close] + rest, depth + 1)
    ensures Laid([open] + (body + ([close] + rest)), depth) ==
      [open] + (laid + (Line(depth) + ([close] + Laid(rest, depth))))
  {
    var s := [open] + (body + ([close] + rest));
    assert s[1] == body[0] && s[1..] == body + ([close] + rest);
    assert ([close] + rest)[1..] == rest;
    assert Laid([close] + rest, depth + 1) == Line(depth) + ([close] + Laid(rest, depth));
  }

  /** The bracketed text with nothing between. */
  lemma Bracketed(open: string, body: string, space: string, close: string, rest: string)
    ensures open + body + space + close + rest == open + (body + (space + (close + rest)))
  {
    Nested(open, body, space, close, rest);
  }

  lemma {:induction false} ValueLaid(v: Json, rest: string, depth: nat)
    ensures Laid(Text(Compact, depth, v) + rest, depth) == Text(Pretty, depth, v) + Laid(rest, depth)
    decreases v, 1
  {
    match v
    case Arr(elems) =>
      if elems == [] {
        assert Text(Compact, depth, v) == ['[', ']'] && Text(Pretty, depth, v) == ['[', ']'];
        EmptyLaid('[', ']', rest, depth);
      } else {
        ElemsLaid(elems, "]" + rest, depth + 1);
        ArrayLaid(elems, rest, depth);
      }
    case Obj(members) =>
      if members == [] {
        assert Text(Compact, depth, v) == ['{', '}'] && Text(Pretty, depth, v) == ['{', '}'];
        EmptyLaid('{', '}', rest, depth);
      } else {
        MembersLaid(members, "}" + rest, depth + 1);
        ObjectLaid(members, rest, depth);
      }
    case _ => ScalarLaid(v, rest, depth);
  }

  lemma ArrayLaid(elems: seq<Json>, rest: string, depth: nat)
    requires elems != []
    requires Line(depth + 1) + Laid(ElemsText(Compact, depth + 1, elems) + ("]" + rest), depth + 1) ==
      ElemsText(Pretty, depth + 1, elems) + Laid("]" + rest, depth + 1)
    ensures Laid(Text(Compact, depth, Arr(elems)) + rest, depth) == Text(Pretty, depth, Arr(elems)) + Laid(rest, depth)
  {
    var body, laid := ElemsText(Compact, depth + 1, elems), ElemsText(Pretty, depth + 1, elems);
    LineIs(depth);
    LineIs(depth + 1);
    ElemsTextParts(Compact, depth + 1, elems, "");
    TextHead(Compact, depth + 1, elems[0]);
    assert body + "" == body && body[0] == Text(Compact, depth + 1, elems[0])[0];
    Bracketed("[", body, "", "]", rest);
    assert "" + ("]" + rest) == "]" + rest;
    FullLaid('[', ']', body, laid, rest, depth);
    Bracketed("[", laid, Line(depth), "]", Laid(rest, depth));
  }

  lemma ObjectLaid(members: seq<Member>, rest: string, depth: nat)
    requires members != []
    requires Line(depth + 1) + Laid(MembersText(Compact, depth + 1, members) + ("}" + rest), depth + 1) ==
      MembersText(Pretty, depth + 1, members) + Laid("}" + rest, depth + 1)
    ensures Laid(Text(Compact, depth, Obj(members)) + rest, depth) == Text(Pretty, depth, Obj(members)) + Laid(rest, depth)
  {
    var body, laid := MembersText(Compact, depth + 1, members), MembersText(Pretty, depth + 1, members);
    LineIs(depth);
    LineIs(depth + 1);
    MembersTextParts(Compact, depth + 1, members, "");
    assert body + "" == body && body[0] == '"';
    Bracketed("{", body, "", "}", rest);
    assert "" + ("}" + rest) == "}" + rest;
    FullLaid('{', '}', body, laid, rest, depth);
    Bracketed("{", laid, Line(depth), "}", Laid(rest, depth));
  }

  lemma CommaLaid(rest: string, depth: nat)
    ensures Laid("," + rest, depth) == "," + (Line(depth) + Laid(rest, depth))
  {
    assert ("," + rest)[1..] == rest;
  }

  lemma {:induction false} ElemsLaid(elems: seq<Json>, end: string, depth: nat)
    requires elems != []
    ensures Line(depth) + Laid(ElemsText(Compact, depth, elems) + end, depth) ==
      ElemsText(Pretty, depth, elems) + Laid(end, depth)
    decreases elems, 0
  {
    var more := ElemsText(Compact, depth, elems[1..]) + end;
    var after := Comma(Compact, |elems|) + more;
    LineIs(depth);
    ElemsTextParts(Compact, depth, elems, end);
    assert "" + (Text(Compact, depth, elems[0]) + after) == Text(Compact, depth, elems[0]) + after;
    ValueLaid(elems[0], after, depth);
    ElemsTextParts(Pretty, depth, elems, Laid(end, depth));
    if |elems| > 1 {
      ElemsLaid(elems[1..], end, depth);
      CommaLaid(more, depth);
    } else {
      assert elems[1..] == [] && "" + end == end && "" + ("" + end) == end;
      assert "" + ("" + Laid(end, depth)) == Laid(end, depth);
    }
  }

  lemma NameLaid(name: string, rest: string, depth: nat)
    ensures Laid(NameText(Compact, name) + rest, depth) == NameText(Pretty, name) + Laid(rest, depth)
  {
    Assoc(Quoted(name), ":", rest);
    QuotedLaid(name, ":" + rest, depth);
    assert (":" + rest)[1..] == rest;
    Assoc(Quoted(name), ": ", Laid(rest, depth));
  }

  lemma {:induction false} MembersLaid(ms: seq<Member>, end: string, depth: nat)
    requires ms != []
    ensures Line(depth) + Laid(MembersText(Compact, depth, ms) + end, depth) ==
      MembersText(Pretty, depth, ms) + Laid(end, depth)
    decreases ms, 0
  {
    var more := MembersText(Compact, depth, ms[1..]) + end;
    var after := Comma(Compact, |ms|) + more;
    LineIs(depth);
    MembersTextParts(Compact, depth, ms, end);
    var value := Text(Compact, depth, ms[0].value) + after;
    assert "" + (NameText(Compact, ms[0].name) + value) == NameText(Compact, ms[0].name) + value;
    NameLaid(ms[0].name, value, depth);
    ValueLaid(ms[0].value, after, depth);
    MembersTextParts(Pretty, depth, ms, Laid(end, depth));
    if |ms| > 1 {
      MembersLaid(ms[1..], end, depth);
      CommaLaid(more, depth);
    } else {
      assert ms[1..] == [] && "" + end == end && "" + ("" + end) == end;
      assert "" + ("" + Laid(end, depth)) == Laid(end, depth);
    }
  }

  /** The indented text is the compact text laid out. */
  lemma PrettyIsLaidOut(v: Json)
    ensures Text(Pretty, 0, v) == Laid(Text(Compact, 0, v), 0)
  {
    ValueLaid(v, "", 0);
    assert Text(Compact, 0, v) + "" == Text(Compact, 0, v) && Text(Pretty, 0, v) + "" == Text(Pretty, 0, v);
  }
}
