/** JSON text: the record text JSONHandler writes, the writers of the data column, and a parser for the RFC 8259
    grammar, extended (when lax) with trailing commas, of numbers without exponent and with at most six digits after
    the point. */
module JsonText {
  import opened CStrings
  import opened Decimal
  import opened JsonTree

  // ---- Writing --------------------------------------------------------------------------------

  function HexDigit(d: nat): char
    requires d < 16
  {
    if d < 10 then '0' + d as char else 'A' + (d - 10) as char
  }

  function EscapedChar(c: char): string {
    if c == '"' then "\\\""
    else if c == '\\' then "\\\\"
    else if c == '\U{8}' then "\\b"
    else if c == '\U{c}' then "\\f"
    else if c == '\n' then "\\n"
    else if c == '\r' then "\\r"
    else if c == '\t' then "\\t"
    else if c < ' ' then "\\u00" + [HexDigit(c as nat / 16), HexDigit(c as nat % 16)]
    else [c]
  }

  function Escaped(s: string): string {
    if s == "" then "" else EscapedChar(s[0]) + Escaped(s[1..])
  }

  lemma {:induction false} EscapedSnoc(s: string, c: char)
    ensures Escaped(s + [c]) == Escaped(s) + EscapedChar(c)
  {
    if s == "" {
      assert s + [c] == [c] && [c][1..] == "";
    } else {
      assert (s + [c])[1..] == s[1..] + [c];
      EscapedSnoc(s[1..], c);
    }
  }

  method EncodeJson(str: string, newstr: string) returns (out: string)
    ensures out == newstr + Escaped(CStr(str))
  {
    out := newstr;
    var p := 0;
    ghost var s := CStr(str);
    while p < |str| && str[p] != NUL
      invariant p <= |s|
      invariant out == newstr + Escaped(s[..p])
    {
      var c := str[p];
      EscapedSnoc(s[..p], c);
      assert s[..p + 1] == s[..p] + [c];
      Assoc(newstr, Escaped(s[..p]), EscapedChar(c));
      if c == '"' {
        out := out + "\\\"";
      } else if c == '\\' {
        out := out + "\\\\";
      } else if c == '\U{8}' {
        out := out + "\\b";
      } else if c == '\U{c}' {
        out := out + "\\f";
      } else if c == '\n' {
        out := out + "\\n";
      } else if c == '\r' {
        out := out + "\\r";
      } else if c == '\t' {
        out := out + "\\t";
      } else if 0 <= c as int <= 31 {
        out := out + ("\\u00" + [HexDigit(c as nat / 16), HexDigit(c as nat % 16)]);
      } else {
        out := out + [c];
      }
      p := p + 1;
    }
    assert s[..p] == s;
  }

  /** Handler: what the SAX events append, a comma after every element. Compact, Pretty: RapidJSON's Writer
      and PrettyWriter. */
  datatype Style = Handler | Compact | Pretty

  function Spaces(n: nat): string {
    if n == 0 then "" else " " + Spaces(n - 1)
  }

  function LineStart(style: Style, indent: nat): string {
    if style.Pretty? then "\n" + Spaces(4 * indent) else ""
  }

  function Comma(style: Style, left: nat): string {
    if left > 1 || style.Handler? then "," else ""
  }

  function FractionText(style: Style, f: nat): (s: string)
    ensures AllDigits(s) && 0 < |s| <= 6
  {
    if style.Handler? then Padded(f, 6) else WithoutTrailingZeros(Padded(f, 6))
  }

  const Million := 1_000_000

  function DecText(style: Style, m: int): string {
    if m < 0 then "-" + UnsignedDecText(style, -m) else UnsignedDecText(style, m)
  }

  function UnsignedDecText(style: Style, m: nat): string {
    NatText(m / Million) + "." + FractionText(style, m % Million)
  }

  function Quoted(s: string): string {
    "\"" + Escaped(s) + "\""
  }

  function Text(style: Style, indent: nat, v: Json): string
    decreases v, 1
  {
    match v
    case Null => "null"
    case Bool(b) => if b then "true" else "false"
    case Int(i) => IntText(i)
    case Dec(m) => DecText(style, m)
    case Str(s) => Quoted(s)
    case Arr(elems) =>
      "[" + ElemsText(style, indent + 1, elems) + (if elems == [] then "" else LineStart(style, indent)) + "]"
    case Obj(members) =>
      "{" + MembersText(style, indent + 1, members) + (if members == [] then "" else LineStart(style, indent)) + "}"
  }

  function ElemsText(style: Style, indent: nat, elems: seq<Json>): string
    decreases elems, 0
  {
    if elems == [] then ""
    else LineStart(style, indent) + (Text(style, indent, elems[0]) + (Comma(style, |elems|) +
         ElemsText(style, indent, elems[1..])))
  }

  function NameText(style: Style, name: string): string {
    Quoted(name) + (if style.Pretty? then ": " else ":")
  }

  function MembersText(style: Style, indent: nat, ms: seq<Member>): string
    decreases ms, 0
  {
    if ms == [] then ""
    else LineStart(style, indent) + (NameText(style, ms[0].name) + (Text(style, indent, ms[0].value) +
         (Comma(style, |ms|) + MembersText(style, indent, ms[1..]))))
  }

  // ---- Parsing --------------------------------------------------------------------------------

  datatype Parsed<T> = Fail | Done(value: T, rest: string)

  predicate IsSpace(c: char) {
    c in " \t\n\r"
  }

  function SkipSpace(s: string): (r: string)
    ensures |r| <= |s|
    ensures r != "" ==> !IsSpace(r[0])
  {
    if s != "" && IsSpace(s[0]) then SkipSpace(s[1..]) else s
  }

  function HexValue(c: char): int {
    if '0' <= c <= '9' then (c - '0') as int
    else if 'A' <= c <= 'F' then (c - 'A') as int + 10
    else if 'a' <= c <= 'f' then (c - 'a') as int + 10
    else -1
  }

  /** The character an escape stands for and the length of the escape. */
  function EscapeAt(s: string): (r: Parsed<char>)
    requires s != "" && s[0] == '\\'
    ensures r.Done? ==> |r.rest| < |s|
  {
    if |s| < 2 then Fail
    else if s[1] == '"' || s[1] == '\\' || s[1] == '/' then Done(s[1], s[2..])
    else if s[1] == 'b' then Done('\U{8}', s[2..])
    else if s[1] == 'f' then Done('\U{c}', s[2..])
    else if s[1] == 'n' then Done('\n', s[2..])
    else if s[1] == 'r' then Done('\r', s[2..])
    else if s[1] == 't' then Done('\t', s[2..])
    else if s[1] == 'u' && |s| >= 6 && s[2] == '0' && s[3] == '0' && 0 <= HexValue(s[4]) < 8 && HexValue(s[5]) >= 0 then
      Done((16 * HexValue(s[4]) + HexValue(s[5])) as char, s[6..])
    else Fail
  }

  /** The characters up to the closing quotation mark. */
  function ParseChars(s: string): (r: Parsed<string>)
    ensures r.Done? ==> |r.rest| < |s|
    decreases |s|
  {
    if s == "" || s[0] < ' ' then Fail
    else if s[0] == '"' then Done("", s[1..])
    else
      var c := if s[0] == '\\' then EscapeAt(s) else Done(s[0], s[1..]);
      if c.Fail? then Fail
      else
        match ParseChars(c.rest)
        case Fail => Fail
        case Done(t, rest) => Done([c.value] + t, rest)
  }

  function FixedPoint(whole: string, fraction: string): int
    requires AllDigits(whole) && AllDigits(fraction) && |fraction| <= 6
  {
    DigitsValue(whole) * Million + DigitsValue(fraction) * Pow10(6 - |fraction|)
  }

  /** A part of the numbers of RFC 8259: no exponent, and a fraction of at most six digits, as to_string prints it. */
  function ParseUnsigned(s: string): (r: Parsed<Json>)
    ensures r.Done? ==> |r.rest| < |s| && r.value.Number()
  {
    var n := DigitRun(s);
    if n == 0 || (s[0] == '0' && n > 1) then Fail
    else if n < |s| && s[n] == '.' then
      var f := DigitRun(s[n + 1..]);
      if f == 0 || f > 6 then Fail
      else
        Done(Dec(FixedPoint(s[..n], s[n + 1..][..f])), s[n + 1..][f..])
    else Done(Int(DigitsValue(s[..n])), s[n..])
  }

  function Negated(v: Json): Json
    requires v.Number()
  {
    if v.Int? then Int(-v.i) else Dec(-v.millionths)
  }

  function ParseNumber(s: string): (r: Parsed<Json>)
    ensures r.Done? ==> |r.rest| < |s|
  {
    if s != "" && s[0] == '-' then
      match ParseUnsigned(s[1..])
      case Fail => Fail
      case Done(v, rest) => Done(Negated(v), rest)
    else ParseUnsigned(s)
  }

  function ParseWord(word: string, v: Json, s: string): (r: Parsed<Json>)
    requires word != ""
    ensures r.Done? ==> |r.rest| < |s|
  {
    if word <= s then Done(v, s[|word|..]) else Fail
  }

  function ParseValue(lax: bool, text: string): (r: Parsed<Json>)
    ensures r.Done? ==> |r.rest| < |text|
    decreases |text|, 2
  {
    var s := SkipSpace(text);
    if s == "" then Fail
    else if s[0] == 'n' then ParseWord("null", Null, s)
    else if s[0] == 't' then ParseWord("true", Bool(true), s)
    else if s[0] == 'f' then ParseWord("false", Bool(false), s)
    else if s[0] == '"' then
      (match ParseChars(s[1..])
       case Fail => Fail
       case Done(t, rest) => Done(Str(t), rest))
    else if s[0] == '[' then
      (match ParseElems(lax, true, s[1..])
       case Fail => Fail
       case Done(elems, rest) => Done(Arr(elems), rest))
    else if s[0] == '{' then
      (match ParseMembers(lax, true, s[1..])
       case Fail => Fail
       case Done(members, rest) => Done(Obj(members), rest))
    else ParseNumber(s)
  }

  /** Elements up to the closing bracket; `first` says that no comma has been read yet. */
  function ParseElems(lax: bool, first: bool, text: string): (r: Parsed<seq<Json>>)
    ensures r.Done? ==> |r.rest| < |text|
    decreases |text|, 3
  {
    var s := SkipSpace(text);
    if s != "" && s[0] == ']' && (first || lax) then Done([], s[1..])
    else
      match ParseValue(lax, s)
      case Fail => Fail
      case Done(v, after) =>
        var t := SkipSpace(after);
        if t == "" then Fail
        else if t[0] == ']' then Done([v], t[1..])
        else if t[0] == ',' then
          match ParseElems(lax, false, t[1..])
          case Fail => Fail
          case Done(vs, rest) => Done([v] + vs, rest)
        else Fail
  }

  function ParseMember(lax: bool, text: string): (r: Parsed<Member>)
    ensures r.Done? ==> |r.rest| < |text|
    decreases |text|, 3
  {
    if text == "" || text[0] != '"' then Fail
    else
      match ParseChars(text[1..])
      case Fail => Fail
      case Done(name, after) =>
        var t := SkipSpace(after);
        if t == "" || t[0] != ':' then Fail
        else
          match ParseValue(lax, t[1..])
          case Fail => Fail
          case Done(v, rest) => Done(Member(name, v), rest)
  }

  function ParseMembers(lax: bool, first: bool, text: string): (r: Parsed<seq<Member>>)
    ensures r.Done? ==> |r.rest| < |text|
    decreases |text|, 4
  {
    var s := SkipSpace(text);
    if s != "" && s[0] == '}' && (first || lax) then Done([], s[1..])
    else
      match ParseMember(lax, s)
      case Fail => Fail
      case Done(m, after) =>
        var t := SkipSpace(after);
        if t == "" then Fail
        else if t[0] == '}' then Done([m], t[1..])
        else if t[0] == ',' then
          match ParseMembers(lax, false, t[1..])
          case Fail => Fail
          case Done(ms, rest) => Done([m] + ms, rest)
        else Fail
  }

  /** A whole document: one value and nothing after it. */
  function ParseDocument(lax: bool, text: string): Parsed<Json> {
    match ParseValue(lax, text)
    case Fail => Fail
    case Done(v, rest) => if SkipSpace(rest) == "" then Done(v, "") else Fail
  }

  // ---- Round trip -----------------------------------------------------------------------------

  lemma EscapeReads(c: char, rest: string)
    requires EscapedChar(c) != [c]
    ensures EscapedChar(c)[0] == '\\' && EscapeAt(EscapedChar(c) + rest) == Done(c, rest)
  {
    var e := EscapedChar(c);
    assert (e + rest)[|e|..] == rest;
    assert forall i :: 0 <= i < |e| ==> (e + rest)[i] == e[i];
  }

  lemma {:induction false} CharsRead(s: string, rest: string)
    ensures ParseChars(Escaped(s) + ("\"" + rest)) == Done(s, rest)
  {
    var close := "\"" + rest;
    if s == "" {
      assert Escaped(s) + close == close && close[1..] == rest;
    } else {
      var e := EscapedChar(s[0]);
      var more := Escaped(s[1..]) + close;
      Assoc(e, Escaped(s[1..]), close);
      CharsRead(s[1..], rest);
      if e == [s[0]] {
        assert (e + more)[1..] == more;
      } else {
        EscapeReads(s[0], more);
      }
      assert s == [s[0]] + s[1..];
    }
  }

  lemma QuotedReads(s: string, rest: string)
    ensures Quoted(s) + rest == "\"" + (Escaped(s) + ("\"" + rest))
    ensures (Quoted(s) + rest)[1..] == Escaped(s) + ("\"" + rest)
    ensures ParseChars((Quoted(s) + rest)[1..]) == Done(s, rest)
  {
    Assoc("\"" + Escaped(s), "\"", rest);
    Assoc("\"", Escaped(s), "\"" + rest);
    CharsRead(s, rest);
  }

  /** An encoded string is read back up to its first NUL. */
  lemma StringReadsBackIffNoNul(s: string, rest: string)
    ensures ParseChars(Escaped(CStr(s)) + ("\"" + rest)) == Done(CStr(s), rest)
    ensures ParseChars(Escaped(CStr(s)) + ("\"" + rest)) == Done(s, rest) <==> NUL !in s
  {
    CharsRead(CStr(s), rest);
    if NUL !in s {
      CStrOfClean(s);
    }
  }

  /** A following character that cannot continue a number. */
  predicate Stops(rest: string) {
    rest != "" ==> !IsDigit(rest[0]) && rest[0] != '.'
  }

  lemma NatReads(n: nat, rest: string)
    requires Stops(rest)
    ensures ParseUnsigned(NatText(n) + rest) == Done(Int(n), rest)
  {
    NatTextValue(n);
    DigitRunOf(NatText(n), rest);
  }

  /** to_string writes six decimals, the writers of the data column as many as it takes. */
  lemma FractionForm(style: Style, f: nat)
    ensures
      var s := FractionText(style, f);
      if style.Handler? then |s| == 6 else |s| == 1 || s[|s| - 1] != '0'
  {
    NoZeroLeft(Padded(f, 6));
  }

  lemma {:induction false} NoZeroLeft(s: string)
    requires AllDigits(s) && s != ""
    ensures |WithoutTrailingZeros(s)| == 1 || WithoutTrailingZeros(s)[|WithoutTrailingZeros(s)| - 1] != '0'
  {
    if |s| > 1 && s[|s| - 1] == '0' {
      NoZeroLeft(s[..|s| - 1]);
    }
  }

  lemma FractionValue(style: Style, f: nat)
    requires f < Million
    ensures DigitsValue(FractionText(style, f)) * Pow10(6 - |FractionText(style, f)|) == f
  {
    assert Pow10(6) == Million by {
      assert Pow10(3) == 1000;
    }
    PaddedValue(f, 6);
    TrailingZerosValue(Padded(f, 6));
  }

  lemma FixedPointReads(whole: string, fraction: string, rest: string)
    requires AllDigits(whole) && whole != "" && (whole[0] == '0' ==> |whole| == 1)
    requires AllDigits(fraction) && 0 < |fraction| <= 6 && Stops(rest)
    ensures ParseUnsigned(whole + ("." + (fraction + rest))) == Done(Dec(FixedPoint(whole, fraction)), rest)
  {
    var tail := fraction + rest;
    var s := whole + ("." + tail);
    DigitRunOf(whole, "." + tail);
    DigitRunOf(fraction, rest);
    assert s[|whole| + 1..] == tail && s[..|whole|] == whole;
    assert s[|whole|] == '.' && s[0] == whole[0];
    ParsedFixedPoint(s, |whole|, |fraction|);
    assert tail[..|fraction|] == fraction && tail[|fraction|..] == rest;
  }

  lemma ParsedFixedPoint(s: string, n: nat, f: nat)
    requires 0 < n < |s| && DigitRun(s) == n && (s[0] == '0' ==> n == 1) && s[n] == '.'
    requires 0 < f <= 6 && DigitRun(s[n + 1..]) == f
    ensures ParseUnsigned(s) == Done(Dec(FixedPoint(s[..n], s[n + 1..][..f])), s[n + 1..][f..])
  {
  }

  lemma FixedPointOf(style: Style, m: nat)
    ensures FixedPoint(NatText(m / Million), FractionText(style, m % Million)) == m
  {
    NatTextValue(m / Million);
    FractionValue(style, m % Million);
  }

  lemma DecReads(style: Style, m: nat, rest: string)
    requires Stops(rest)
    ensures ParseUnsigned(UnsignedDecText(style, m) + rest) == Done(Dec(m), rest)
  {
    var whole, fraction := NatText(m / Million), FractionText(style, m % Million);
    Assoc(whole + ".", fraction, rest);
    Assoc(whole, ".", fraction + rest);
    NatTextValue(m / Million);
    FixedPointOf(style, m);
    FixedPointReads(whole, fraction, rest);
  }

  function Magnitude(v: Json): Json
    requires v.Number()
  {
    match v
    case Int(i) => Int(if i < 0 then -i else i)
    case Dec(m) => Dec(if m < 0 then -m else m)
  }

  function MagnitudeText(style: Style, v: Json): string
    requires v.Number()
  {
    match Magnitude(v)
    case Int(i) => NatText(i)
    case Dec(m) => UnsignedDecText(style, m)
  }

  lemma NumberText(style: Style, indent: nat, v: Json)
    requires v.Number()
    ensures Text(style, indent, v) ==
      if v == Magnitude(v) then MagnitudeText(style, v) else "-" + MagnitudeText(style, v)
    ensures v == if v == Magnitude(v) then Magnitude(v) else Negated(Magnitude(v))
  {
  }

  lemma MagnitudeReads(style: Style, v: Json, rest: string)
    requires v.Number() && Stops(rest)
    ensures MagnitudeText(style, v) != "" && IsDigit(MagnitudeText(style, v)[0])
    ensures ParseUnsigned(MagnitudeText(style, v) + rest) == Done(Magnitude(v), rest)
  {
    match Magnitude(v)
    case Int(i) => NatReads(i, rest);
    case Dec(m) => DecReads(style, m, rest);
  }

  lemma SignedReads(digits: string, v: Json, rest: string)
    requires digits != "" && IsDigit(digits[0]) && v.Number()
    requires ParseUnsigned(digits + rest) == Done(v, rest)
    ensures ParseNumber(digits + rest) == Done(v, rest)
    ensures ParseNumber("-" + digits + rest) == Done(Negated(v), rest)
  {
    assert (digits + rest)[0] == digits[0];
    NegativeReads(digits + rest, v, rest);
    Assoc("-", digits, rest);
  }

  lemma NegativeReads(s: string, v: Json, rest: string)
    requires v.Number() && ParseUnsigned(s) == Done(v, rest)
    ensures ParseNumber("-" + s) == Done(Negated(v), rest)
  {
    assert ("-" + s)[1..] == s;
  }

  lemma NumberReads(style: Style, indent: nat, v: Json, rest: string)
    requires v.Number() && Stops(rest)
    ensures ParseNumber(Text(style, indent, v) + rest) == Done(v, rest)
    ensures Text(style, indent, v) != ""
    ensures Text(style, indent, v)[0] == '-' || IsDigit(Text(style, indent, v)[0])
  {
    NumberText(style, indent, v);
    MagnitudeReads(style, v, rest);
    SignedReads(MagnitudeText(style, v), Magnitude(v), rest);
  }

  lemma {:induction false} SpaceSkipped(space: string, s: string)
    requires forall i :: 0 <= i < |space| ==> IsSpace(space[i])
    ensures SkipSpace(space + s) == SkipSpace(s)
  {
    if space == "" {
      assert space + s == s;
    } else {
      assert (space + s)[1..] == space[1..] + s;
      SpaceSkipped(space[1..], s);
    }
  }

  lemma {:induction false} SpacesAreSpace(n: nat)
    ensures forall i :: 0 <= i < |Spaces(n)| ==> IsSpace(Spaces(n)[i])
  {
    if n > 0 {
      SpacesAreSpace(n - 1);
    }
  }

  lemma LineStartSkipped(style: Style, indent: nat, s: string)
    ensures SkipSpace(LineStart(style, indent) + s) == SkipSpace(s)
    ensures LineStart(style, indent) != "" ==> IsSpace(LineStart(style, indent)[0])
  {
    SpacesAreSpace(4 * indent);
    SpaceSkipped(LineStart(style, indent), s);
  }

  lemma TextHead(style: Style, indent: nat, v: Json)
    ensures Text(style, indent, v) != ""
    ensures !IsSpace(Text(style, indent, v)[0]) && Text(style, indent, v)[0] !in "]}"
  {
    if v.Number() {
      NumberReads(style, indent, v, "");
    }
  }

  // One step of each list parser.

  lemma ElemsEnd(lax: bool, first: bool, text: string, rest: string)
    requires first || lax
    requires SkipSpace(text) == "]" + rest
    ensures ParseElems(lax, first, text) == Done([], rest)
  {
    assert ("]" + rest)[1..] == rest;
  }

  lemma ElemsLast(lax: bool, first: bool, text: string, v: Json, after: string, rest: string)
    requires SkipSpace(text) != "" && SkipSpace(text)[0] != ']'
    requires ParseValue(lax, SkipSpace(text)) == Done(v, after)
    requires SkipSpace(after) == "]" + rest
    ensures ParseElems(lax, first, text) == Done([v], rest)
  {
    assert ("]" + rest)[1..] == rest;
  }

  lemma ElemsMore(lax: bool, first: bool, text: string, v: Json, more: string, vs: seq<Json>, rest: string)
    requires SkipSpace(text) != "" && SkipSpace(text)[0] != ']'
    requires ParseValue(lax, SkipSpace(text)) == Done(v, "," + more)
    requires ParseElems(lax, false, more) == Done(vs, rest)
    ensures ParseElems(lax, first, text) == Done([v] + vs, rest)
  {
    assert ("," + more)[1..] == more;
  }

  lemma MembersEnd(lax: bool, first: bool, text: string, rest: string)
    requires first || lax
    requires SkipSpace(text) == "}" + rest
    ensures ParseMembers(lax, first, text) == Done([], rest)
  {
    assert ("}" + rest)[1..] == rest;
  }

  lemma MembersLast(lax: bool, first: bool, text: string, m: Member, after: string, rest: string)
    requires SkipSpace(text) != "" && SkipSpace(text)[0] != '}'
    requires ParseMember(lax, SkipSpace(text)) == Done(m, after)
    requires SkipSpace(after) == "}" + rest
    ensures ParseMembers(lax, first, text) == Done([m], rest)
  {
    assert ("}" + rest)[1..] == rest;
  }

  lemma MembersMore(lax: bool, first: bool, text: string, m: Member, more: string, ms: seq<Member>, rest: string)
    requires SkipSpace(text) != "" && SkipSpace(text)[0] != '}'
    requires ParseMember(lax, SkipSpace(text)) == Done(m, "," + more)
    requires ParseMembers(lax, false, more) == Done(ms, rest)
    ensures ParseMembers(lax, first, text) == Done([m] + ms, rest)
  {
    assert ("," + more)[1..] == more;
  }

  lemma ArrayReads(lax: bool, body: string, elems: seq<Json>, rest: string)
    requires ParseElems(lax, true, body) == Done(elems, rest)
    ensures ParseValue(lax, "[" + body) == Done(Arr(elems), rest)
  {
    assert ("[" + body)[1..] == body;
  }

  lemma ObjectReads(lax: bool, body: string, members: seq<Member>, rest: string)
    requires ParseMembers(lax, true, body) == Done(members, rest)
    ensures ParseValue(lax, "{" + body) == Done(Obj(members), rest)
  {
    assert ("{" + body)[1..] == body;
  }

  lemma WordsRead(lax: bool, rest: string)
    ensures ParseValue(lax, "null" + rest) == Done(Null, rest)
    ensures ParseValue(lax, "true" + rest) == Done(Bool(true), rest)
    ensures ParseValue(lax, "false" + rest) == Done(Bool(false), rest)
  {
    assert ("null" + rest)[4..] == ("true" + rest)[4..] == ("false" + rest)[5..] == rest;
  }

  lemma StringReads(lax: bool, s: string, rest: string)
    ensures ParseValue(lax, Quoted(s) + rest) == Done(Str(s), rest)
  {
    QuotedReads(s, rest);
  }

  lemma DigitsRead(lax: bool, t: string, v: Json, rest: string)
    requires t != "" && (t[0] == '-' || IsDigit(t[0]))
    requires ParseNumber(t + rest) == Done(v, rest)
    ensures ParseValue(lax, t + rest) == Done(v, rest)
  {
    assert (t + rest)[0] == t[0];
    NumberHead(lax, t + rest);
  }

  lemma NumberHead(lax: bool, s: string)
    requires s != "" && (s[0] == '-' || IsDigit(s[0]))
    ensures ParseValue(lax, s) == ParseNumber(s)
  {
    assert SkipSpace(s) == s;
  }

  lemma ScalarReads(style: Style, lax: bool, indent: nat, v: Json, rest: string)
    requires v.Scalar() && Stops(rest)
    ensures ParseValue(lax, Text(style, indent, v) + rest) == Done(v, rest)
  {
    if v.Number() {
      NumberReads(style, indent, v, rest);
      DigitsRead(lax, Text(style, indent, v), v, rest);
    } else if v.Str? {
      StringReads(lax, v.s, rest);
    } else {
      WordsRead(lax, rest);
    }
  }

  lemma Nested(open: string, body: string, space: string, close: string, rest: string)
    ensures open + body + space + close + rest == open + (body + (space + (close + rest)))
  {
    Assoc(open + body + space, close, rest);
    Assoc(open + body, space, close + rest);
    Assoc(open, body, space + (close + rest));
  }

  lemma {:induction false} ValueReads(style: Style, lax: bool, indent: nat, v: Json, rest: string)
    requires style.Handler? ==> lax
    requires Stops(rest)
    ensures ParseValue(lax, Text(style, indent, v) + rest) == Done(v, rest)
    decreases v, 1
  {
    match v
    case Arr(elems) =>
      var body := ElemsText(style, indent + 1, elems);
      var close := if elems == [] then "" else LineStart(style, indent);
      Nested("[", body, close, "]", rest);
      ElemsRead(style, lax, true, indent + 1, elems, close, indent, rest);
      ArrayReads(lax, body + (close + ("]" + rest)), elems, rest);
    case Obj(members) =>
      var body := MembersText(style, indent + 1, members);
      var close := if members == [] then "" else LineStart(style, indent);
      Nested("{", body, close, "}", rest);
      MembersRead(style, lax, true, indent + 1, members, close, indent, rest);
      ObjectReads(lax, body + (close + ("}" + rest)), members, rest);
    case _ => ScalarReads(style, lax, indent, v, rest);
  }

  lemma CloseSkipped(style: Style, closeIndent: nat, close: string, last: string)
    requires close == "" || close == LineStart(style, closeIndent)
    requires last != "" && last[0] in "]}"
    ensures SkipSpace(close + last) == last
    ensures Stops(close + last)
  {
    LineStartSkipped(style, closeIndent, last);
    assert "" + last == last;
    assert close != "" ==> (close + last)[0] == close[0];
  }

  lemma ElemsTextParts(style: Style, indent: nat, elems: seq<Json>, end: string)
    requires elems != []
    ensures ElemsText(style, indent, elems) + end ==
      LineStart(style, indent) + (Text(style, indent, elems[0]) +
        (Comma(style, |elems|) + (ElemsText(style, indent, elems[1..]) + end)))
  {
    var e, comma, more :=
      Text(style, indent, elems[0]), Comma(style, |elems|), ElemsText(style, indent, elems[1..]);
    Assoc(LineStart(style, indent), e + (comma + more), end);
    Assoc(e, comma + more, end);
    Assoc(comma, more, end);
  }

  lemma {:induction false} ElemReads(style: Style, lax: bool, indent: nat, v: Json, after: string)
    requires style.Handler? ==> lax
    requires Stops(after)
    ensures
      var text := LineStart(style, indent) + (Text(style, indent, v) + after);
      && SkipSpace(text) != "" && SkipSpace(text)[0] != ']'
      && ParseValue(lax, SkipSpace(text)) == Done(v, after)
    decreases v, 2
  {
    ReadsFrom(style, indent, v, after);
    ValueReads(style, lax, indent, v, after);
  }

  lemma {:induction false} LastElemReads(style: Style, lax: bool, first: bool, indent: nat, elems: seq<Json>,
                                         end: string, rest: string)
    requires style.Handler? ==> lax
    requires elems != [] && Comma(style, |elems|) == ""
    requires SkipSpace(end) == "]" + rest && Stops(end)
    ensures ParseElems(lax, first, ElemsText(style, indent, elems) + end) == Done(elems, rest)
    decreases elems, 0
  {
    ElemsTextParts(style, indent, elems, end);
    assert elems == [elems[0]] && ElemsText(style, indent, elems[1..]) + end == end && "" + end == end;
    ElemReads(style, lax, indent, elems[0], end);
    ElemsLast(lax, first, ElemsText(style, indent, elems) + end, elems[0], end, rest);
  }

  lemma {:induction false} FirstElemReads(style: Style, lax: bool, first: bool, indent: nat, elems: seq<Json>,
                                          end: string, rest: string)
    requires style.Handler? ==> lax
    requires elems != [] && Comma(style, |elems|) != ""
    requires ParseElems(lax, false, ElemsText(style, indent, elems[1..]) + end) == Done(elems[1..], rest)
    ensures ParseElems(lax, first, ElemsText(style, indent, elems) + end) == Done(elems, rest)
    decreases elems, 0
  {
    var more := ElemsText(style, indent, elems[1..]) + end;
    ElemsTextParts(style, indent, elems, end);
    ElemReads(style, lax, indent, elems[0], "," + more);
    ElemsMore(lax, first, ElemsText(style, indent, elems) + end, elems[0], more, elems[1..], rest);
    assert elems == [elems[0]] + elems[1..];
  }

  lemma {:induction false} ElemsRead(style: Style, lax: bool, first: bool, indent: nat, elems: seq<Json>,
                                     close: string, closeIndent: nat, rest: string)
    requires style.Handler? ==> lax
    requires elems != [] || first || lax
    requires close == "" || close == LineStart(style, closeIndent)
    ensures ParseElems(lax, first, ElemsText(style, indent, elems) + (close + ("]" + rest))) == Done(elems, rest)
    decreases elems, 1
  {
    var end := close + ("]" + rest);
    var text := ElemsText(style, indent, elems) + end;
    CloseSkipped(style, closeIndent, close, "]" + rest);
    if elems == [] {
      assert text == end;
      ElemsEnd(lax, first, text, rest);
    } else {
      if Comma(style, |elems|) == "" {
        LastElemReads(style, lax, first, indent, elems, end, rest);
      } else {
        ElemsRead(style, lax, false, indent, elems[1..], close, closeIndent, rest);
        FirstElemReads(style, lax, first, indent, elems, end, rest);
      }
    }
  }

  /** Leading white space does not hide the first character of a value. */
  lemma ReadsFrom(style: Style, indent: nat, v: Json, after: string)
    ensures SkipSpace(LineStart(style, indent) + (Text(style, indent, v) + after)) == Text(style, indent, v) + after
    ensures (Text(style, indent, v) + after)[0] != ']'
  {
    TextHead(style, indent, v);
    LineStartSkipped(style, indent, Text(style, indent, v) + after);
    assert (Text(style, indent, v) + after)[0] == Text(style, indent, v)[0];
  }

  lemma MemberStep(lax: bool, name: string, space: string, v: Json, value: string, after: string)
    requires space == "" || space == " "
    requires value != "" && !IsSpace(value[0])
    requires ParseValue(lax, value) == Done(v, after)
    ensures ParseMember(lax, Quoted(name) + (":" + (space + value))) == Done(Member(name, v), after)
  {
    var t := ":" + (space + value);
    QuotedReads(name, t);
    assert t[1..] == space + value;
    SpaceSkipped(space, value);
    ValueAfterSpace(lax, space + value, value);
  }

  lemma ValueAfterSpace(lax: bool, text: string, s: string)
    requires SkipSpace(text) == s && SkipSpace(s) == s
    ensures ParseValue(lax, text) == ParseValue(lax, s)
  {
  }

  lemma {:induction false} MemberReads(style: Style, lax: bool, indent: nat, m: Member, after: string)
    requires style.Handler? ==> lax
    requires Stops(after)
    ensures ParseMember(lax, NameText(style, m.name) + (Text(style, indent, m.value) + after)) == Done(m, after)
    decreases m, 0
  {
    var value := Text(style, indent, m.value) + after;
    var space := if style.Pretty? then " " else "";
    TextHead(style, indent, m.value);
    assert value[0] == Text(style, indent, m.value)[0];
    ValueReads(style, lax, indent, m.value, after);
    MemberStep(lax, m.name, space, m.value, value, after);
    assert NameText(style, m.name) == Quoted(m.name) + (":" + space);
    Assoc(Quoted(m.name), ":" + space, value);
    Assoc(":", space, value);
  }

  lemma MembersTextParts(style: Style, indent: nat, ms: seq<Member>, end: string)
    requires ms != []
    ensures MembersText(style, indent, ms) + end ==
      LineStart(style, indent) + (NameText(style, ms[0].name) + (Text(style, indent, ms[0].value) +
        (Comma(style, |ms|) + (MembersText(style, indent, ms[1..]) + end))))
  {
    var name, e, comma, more :=
      NameText(style, ms[0].name), Text(style, indent, ms[0].value), Comma(style, |ms|), MembersText(style, indent, ms[1..]);
    Assoc(LineStart(style, indent), name + (e + (comma + more)), end);
    Assoc(name, e + (comma + more), end);
    Assoc(e, comma + more, end);
    Assoc(comma, more, end);
  }

  lemma NameReadsFrom(style: Style, indent: nat, name: string, value: string)
    ensures SkipSpace(LineStart(style, indent) + (NameText(style, name) + value)) == NameText(style, name) + value
    ensures (NameText(style, name) + value)[0] == '"'
  {
    LineStartSkipped(style, indent, NameText(style, name) + value);
    assert NameText(style, name)[0] == Quoted(name)[0] == '"';
    assert (NameText(style, name) + value)[0] == NameText(style, name)[0];
  }

  lemma {:induction false} LastMemberReads(style: Style, lax: bool, first: bool, indent: nat, ms: seq<Member>,
                                           end: string, rest: string)
    requires style.Handler? ==> lax
    requires ms != [] && Comma(style, |ms|) == ""
    requires SkipSpace(end) == "}" + rest && Stops(end)
    ensures ParseMembers(lax, first, MembersText(style, indent, ms) + end) == Done(ms, rest)
    decreases ms, 0
  {
    MembersTextParts(style, indent, ms, end);
    assert ms == [ms[0]] && MembersText(style, indent, ms[1..]) + end == end && "" + end == end;
    NameReadsFrom(style, indent, ms[0].name, Text(style, indent, ms[0].value) + end);
    MemberReads(style, lax, indent, ms[0], end);
    MembersLast(lax, first, MembersText(style, indent, ms) + end, ms[0], end, rest);
  }

  lemma {:induction false} FirstMemberReads(style: Style, lax: bool, first: bool, indent: nat, ms: seq<Member>,
                                            end: string, rest: string)
    requires style.Handler? ==> lax
    requires ms != [] && Comma(style, |ms|) != ""
    requires ParseMembers(lax, false, MembersText(style, indent, ms[1..]) + end) == Done(ms[1..], rest)
    ensures ParseMembers(lax, first, MembersText(style, indent, ms) + end) == Done(ms, rest)
    decreases ms, 0
  {
    var more := MembersText(style, indent, ms[1..]) + end;
    MembersTextParts(style, indent, ms, end);
    NameReadsFrom(style, indent, ms[0].name, Text(style, indent, ms[0].value) + ("," + more));
    MemberReads(style, lax, indent, ms[0], "," + more);
    MembersMore(lax, first, MembersText(style, indent, ms) + end, ms[0], more, ms[1..], rest);
    assert ms == [ms[0]] + ms[1..];
  }

  lemma {:induction false} MembersRead(style: Style, lax: bool, first: bool, indent: nat, ms: seq<Member>,
                                       close: string, closeIndent: nat, rest: string)
    requires style.Handler? ==> lax
    requires ms != [] || first || lax
    requires close == "" || close == LineStart(style, closeIndent)
    ensures ParseMembers(lax, first, MembersText(style, indent, ms) + (close + ("}" + rest))) == Done(ms, rest)
    decreases ms, 1
  {
    var end := close + ("}" + rest);
    var text := MembersText(style, indent, ms) + end;
    CloseSkipped(style, closeIndent, close, "}" + rest);
    if ms == [] {
      assert text == end;
      MembersEnd(lax, first, text, rest);
    } else {
      if Comma(style, |ms|) == "" {
        LastMemberReads(style, lax, first, indent, ms, end, rest);
      } else {
        MembersRead(style, lax, false, indent, ms[1..], close, closeIndent, rest);
        FirstMemberReads(style, lax, first, indent, ms, end, rest);
      }
    }
  }

  /** Every record text parses back to its tree; the data column's text needs no trailing commas. */
  lemma DocumentRoundTrip(style: Style, v: Json)
    ensures ParseDocument(style.Handler?, Text(style, 0, v)) == Done(v, "")
  {
    ValueReads(style, style.Handler?, 0, v, "");
    assert Text(style, 0, v) + "" == Text(style, 0, v);
  }

  // ---- No NUL in the output -------------------------------------------------------------------

  lemma {:induction false} EscapedHasNoNul(s: string)
    ensures NUL !in Escaped(s)
  {
    if s != "" {
      EscapedHasNoNul(s[1..]);
      assert NUL !in EscapedChar(s[0]);
    }
  }

  lemma NumberHasNoNul(style: Style, indent: nat, v: Json)
    requires v.Number()
    ensures NUL !in Text(style, indent, v)
  {
    NumberText(style, indent, v);
    assert !IsDigit(NUL);
  }

  lemma LineStartHasNoNul(style: Style, indent: nat)
    ensures NUL !in LineStart(style, indent)
  {
    SpacesAreSpace(4 * indent);
  }

  lemma NoNulBetween(a: string, b: string, c: string, d: string)
    requires NUL !in a && NUL !in b && NUL !in c && NUL !in d
    ensures NUL !in a + b + c + d
  {
  }

  lemma {:induction false} TextHasNoNul(style: Style, indent: nat, v: Json)
    ensures NUL !in Text(style, indent, v)
    decreases v, 1
  {
    match v
    case Str(s) =>
      EscapedHasNoNul(s);
      NoNulBetween("\"", Escaped(s), "", "\"");
    case Arr(elems) =>
      ElemsHaveNoNul(style, indent + 1, elems);
      LineStartHasNoNul(style, indent);
      NoNulBetween("[", ElemsText(style, indent + 1, elems), if elems == [] then "" else LineStart(style, indent), "]");
    case Obj(members) =>
      MembersHaveNoNul(style, indent + 1, members);
      LineStartHasNoNul(style, indent);
      NoNulBetween("{", MembersText(style, indent + 1, members), if members == [] then "" else LineStart(style, indent), "}");
    case Int(_) => NumberHasNoNul(style, indent, v);
    case Dec(_) => NumberHasNoNul(style, indent, v);
    case _ =>
  }

  lemma {:induction false} ElemsHaveNoNul(style: Style, indent: nat, elems: seq<Json>)
    ensures NUL !in ElemsText(style, indent, elems)
    decreases elems, 0
  {
    if elems != [] {
      LineStartHasNoNul(style, indent);
      TextHasNoNul(style, indent, elems[0]);
      ElemsHaveNoNul(style, indent, elems[1..]);
      NoNulJoin("", LineStart(style, indent), Text(style, indent, elems[0]), Comma(style, |elems|),
                ElemsText(style, indent, elems[1..]));
    }
  }

  lemma NameHasNoNul(style: Style, name: string)
    ensures NUL !in NameText(style, name)
  {
    EscapedHasNoNul(name);
  }

  lemma NoNulJoin(a: string, b: string, c: string, d: string, e: string)
    requires NUL !in a && NUL !in b && NUL !in c && NUL !in d && NUL !in e
    ensures NUL !in a + (b + (c + (d + e)))
  {
  }

  lemma {:induction false} MembersHaveNoNul(style: Style, indent: nat, ms: seq<Member>)
    ensures NUL !in MembersText(style, indent, ms)
    decreases ms, 0
  {
    if ms != [] {
      LineStartHasNoNul(style, indent);
      NameHasNoNul(style, ms[0].name);
      TextHasNoNul(style, indent, ms[0].value);
      MembersHaveNoNul(style, indent, ms[1..]);
      NoNulJoin(LineStart(style, indent), NameText(style, ms[0].name), Text(style, indent, ms[0].value),
                Comma(style, |ms|), MembersText(style, indent, ms[1..]));
    }
  }
}
