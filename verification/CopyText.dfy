/** PostgreSQL COPY text format: the field encoder of src/dbtype.cpp and the reader on the server side. */
module CopyText {
  import opened CStrings

  datatype Field = Null | Value(text: string)

  type Row = seq<Field>

  // ---- Writing --------------------------------------------------------------------------------

  function EscapedChar(c: char): string {
    if c == '\\' then "\\\\"
    else if c == '\U{8}' then "\\b"
    else if c == '\U{c}' then "\\f"
    else if c == '\n' then "\\n"
    else if c == '\r' then "\\r"
    else if c == '\t' then "\\t"
    else if c == '\U{b}' then "\\v"
    else [c]
  }

  function Escaped(s: string): string {
    if s == "" then "" else EscapedChar(s[0]) + Escaped(s[1..])
  }

  lemma {:induction false} EscapedSnoc(s: string, c: char)
    ensures Escaped(s + [c]) == Escaped(s) + EscapedChar(c)
  {
    if s == "" {
      assert s + [c] == [c] && [c][1..] == "";
    } else {
      assert (s + [c])[1..] == s[1..] + [c];
      EscapedSnoc(s[1..], c);
    }
  }

  method EncodeCopy(str: string) returns (newstr: string)
    ensures newstr == Escaped(CStr(str))
  {
    newstr := "";
    var p := 0;
    ghost var s := CStr(str);
    while p < |str| && str[p] != NUL
      invariant p <= |s|
      invariant newstr == Escaped(s[..p])
    {
      var c := str[p];
      EscapedSnoc(s[..p], c);
      assert s[..p + 1] == s[..p] + [c];
      if c == '\\' {
        newstr := newstr + "\\\\";
      } else if c == '\U{8}' {
        newstr := newstr + "\\b";
      } else if c == '\U{c}' {
        newstr := newstr + "\\f";
      } else if c == '\n' {
        newstr := newstr + "\\n";
      } else if c == '\r' {
        newstr := newstr + "\\r";
      } else if c == '\t' {
        newstr := newstr + "\\t";
      } else if c == '\U{b}' {
        newstr := newstr + "\\v";
      } else {
        newstr := newstr + [c];
      }
      p := p + 1;
    }
    assert s[..p] == s;
  }

  function EncodedField(f: Field): string {
    match f
    case Null => "\\N"
    case Value(text) => Escaped(text)
  }

  /** Fields separated by tabs, without the line end. */
  function EncodedFields(row: Row): string {
    if row == [] then ""
    else if |row| == 1 then EncodedField(row[0])
    else EncodedField(row[0]) + "\t" + EncodedFields(row[1..])
  }

  function EncodedRow(row: Row): string {
    EncodedFields(row) + "\n"
  }

  function EncodedRows(rows: seq<Row>): string {
    if rows == [] then "" else EncodedRow(rows[0]) + EncodedRows(rows[1..])
  }

  // ---- Reading --------------------------------------------------------------------------------

  /** Reads up to the next tab or newline that no backslash protects. */
  function ScanField(s: string): (r: (string, string))
    ensures |r.1| <= |s|
    ensures r.1 == "" || r.1[0] == '\t' || r.1[0] == '\n'
  {
    if s == "" || s[0] == '\t' || s[0] == '\n' then ("", s)
    else if s[0] == '\\' && |s| > 1 then
      var (raw, rest) := ScanField(s[2..]);
      (s[..2] + raw, rest)
    else
      var (raw, rest) := ScanField(s[1..]);
      (s[..1] + raw, rest)
  }

  /** The raw fields of one line and the text after its newline; none if the newline is missing. */
  function ScanLine(s: string): (r: (seq<string>, string, bool))
    ensures |r.0| > 0
    ensures r.2 ==> |r.1| < |s|
    decreases |s|
  {
    var (raw, rest) := ScanField(s);
    if rest == "" then ([raw], "", false)
    else if rest[0] == '\n' then ([raw], rest[1..], true)
    else
      var (fields, after, ended) := ScanLine(rest[1..]);
      ([raw] + fields, after, ended)
  }

  /** Backslash escapes; a backslash before any other character stands for that character. */
  function Unescaped(s: string): string {
    if s == "" then ""
    else if s[0] == '\\' && |s| > 1 then
      var c := s[1];
      var d := if c == 'b' then '\U{8}'
               else if c == 'f' then '\U{c}'
               else if c == 'n' then '\n'
               else if c == 'r' then '\r'
               else if c == 't' then '\t'
               else if c == 'v' then '\U{b}'
               else c;
      [d] + Unescaped(s[2..])
    else [s[0]] + Unescaped(s[1..])
  }

  function DecodedField(raw: string): Field {
    if raw == "\\N" then Null else Value(Unescaped(raw))
  }

  function DecodedFields(raws: seq<string>): Row {
    if raws == [] then [] else [DecodedField(raws[0])] + DecodedFields(raws[1..])
  }

  const EndOfData := "\\."

  datatype Copied = Copied(rows: seq<Row>) | Malformed

  /** What the server stores for a COPY stream: one row per line, up to an end-of-data line `\.`. */
  function DecodedRows(s: string): Copied
    decreases |s|
  {
    if s == "" then Copied([])
    else
      var (raws, rest, ended) := ScanLine(s);
      if !ended then Malformed
      else if raws == [EndOfData] then Copied([])
      else
        match DecodedRows(rest)
        case Malformed => Malformed
        case Copied(rows) => Copied([DecodedFields(raws)] + rows)
  }

  // ---- Round trip -----------------------------------------------------------------------------

  lemma UnescapeChar(c: char, rest: string)
    ensures Unescaped(EscapedChar(c) + rest) == [c] + Unescaped(rest)
  {
    var e := EscapedChar(c);
    assert (e + rest)[|e|..] == rest;
    assert |e| == 2 ==> (e + rest)[1] == e[1];
  }

  lemma {:induction false} UnescapeInverts(s: string)
    ensures Unescaped(Escaped(s)) == s
  {
    if s != "" {
      UnescapeInverts(s[1..]);
      UnescapeChar(s[0], Escaped(s[1..]));
      assert s == [s[0]] + s[1..];
    }
  }

  /** The encoder loses exactly what follows a NUL. */
  lemma EncodingInvertedIffNoNul(s: string)
    ensures Unescaped(Escaped(CStr(s))) == s <==> NUL !in s
  {
    UnescapeInverts(CStr(s));
    if NUL !in s {
      CStrOfClean(s);
    }
  }

  /** No encoded field holds a raw delimiter, and every backslash starts a two-character escape. */
  predicate Framed(e: string) {
    e == "" ||
    (e[0] !in "\\\t\n\r" && Framed(e[1..])) ||
    (e[0] == '\\' && |e| > 1 && e[1] in "\\bfnrtvN" && Framed(e[2..]))
  }

  lemma FramedPrepend(c: char, rest: string)
    requires Framed(rest)
    ensures Framed(EscapedChar(c) + rest)
    ensures EscapedChar(c) + rest != "\\N"
  {
    var e := EscapedChar(c);
    assert (e + rest)[|e|..] == rest;
    assert |e| == 2 ==> (e + rest)[1] == e[1];
  }

  lemma {:induction false} EscapedIsFramed(s: string)
    ensures Framed(Escaped(s))
    ensures Escaped(s) != "\\N"
  {
    if s != "" {
      EscapedIsFramed(s[1..]);
      FramedPrepend(s[0], Escaped(s[1..]));
    }
  }

  lemma {:induction false} FramedHasNoDelimiter(e: string, i: nat)
    requires Framed(e) && i < |e|
    ensures e[i] !in "\t\n\r"
  {
    var n := if e[0] == '\\' then 2 else 1;
    if i >= n {
      FramedHasNoDelimiter(e[n..], i - n);
    }
  }

  lemma EncodedFieldReads(f: Field)
    ensures Framed(EncodedField(f)) && DecodedField(EncodedField(f)) == f
    ensures EncodedField(f) != EndOfData
  {
    match f
    case Null =>
      assert "\\N"[2..] == "";
    case Value(text) =>
      UnescapeInverts(text);
      EscapedIsFramed(text);
  }

  lemma {:induction false} ScanFramed(e: string, rest: string)
    requires Framed(e)
    requires rest != "" && (rest[0] == '\t' || rest[0] == '\n')
    ensures ScanField(e + rest) == (e, rest)
  {
    if e == "" {
      assert e + rest == rest;
    } else {
      var n := if e[0] == '\\' then 2 else 1;
      ScanFramed(e[n..], rest);
      assert (e + rest)[n..] == e[n..] + rest;
      assert (e + rest)[..n] == e[..n];
      assert e == e[..n] + e[n..];
    }
  }

  lemma ScanLastField(e: string, rest: string)
    requires Framed(e)
    ensures ScanLine(e + ("\n" + rest)) == ([e], rest, true)
  {
    ScanFramed(e, "\n" + rest);
    assert ("\n" + rest)[1..] == rest;
  }

  lemma ScanMoreFields(e: string, tail: string)
    requires Framed(e)
    ensures ScanLine(e + ("\t" + tail)) == ([e] + ScanLine(tail).0, ScanLine(tail).1, ScanLine(tail).2)
  {
    ScanFramed(e, "\t" + tail);
    assert ("\t" + tail)[1..] == tail;
  }

  lemma JoinFields(row: Row, end: string)
    requires |row| > 1
    ensures EncodedFields(row) + end == EncodedField(row[0]) + ("\t" + (EncodedFields(row[1..]) + end))
  {
    Assoc(EncodedField(row[0]) + "\t", EncodedFields(row[1..]), end);
    Assoc(EncodedField(row[0]), "\t", EncodedFields(row[1..]) + end);
  }

  lemma DecodedFieldsCons(raw: string, raws: seq<string>)
    ensures DecodedFields([raw] + raws) == [DecodedField(raw)] + DecodedFields(raws)
  {
    assert ([raw] + raws)[1..] == raws;
  }

  lemma {:induction false} ScanEncodedFields(row: Row, rest: string) returns (raws: seq<string>)
    requires row != []
    ensures ScanLine(EncodedFields(row) + ("\n" + rest)) == (raws, rest, true)
    ensures DecodedFields(raws) == row && raws != [EndOfData] && |raws| > 0
  {
    EncodedFieldReads(row[0]);
    var e := EncodedField(row[0]);
    if |row| == 1 {
      ScanLastField(e, rest);
      DecodedFieldsCons(e, []);
      raws := [e];
      assert [e] + [] == [e];
    } else {
      var more := ScanEncodedFields(row[1..], rest);
      JoinFields(row, "\n" + rest);
      ScanMoreFields(e, EncodedFields(row[1..]) + ("\n" + rest));
      DecodedFieldsCons(e, more);
      raws := [e] + more;
    }
  }

  /** Splitting on newlines and tabs recovers exactly the rows that were encoded. */
  lemma {:induction false} CopyRoundTrip(rows: seq<Row>)
    requires forall i :: 0 <= i < |rows| ==> rows[i] != []
    ensures DecodedRows(EncodedRows(rows)) == Copied(rows)
  {
    if rows != [] {
      var rest := EncodedRows(rows[1..]);
      var raws := ScanEncodedFields(rows[0], rest);
      assert EncodedRows(rows) == EncodedFields(rows[0]) + ("\n" + rest);
      CopyRoundTrip(rows[1..]);
    }
  }

  lemma {:induction false} EncodedRowsAppend(a: seq<Row>, b: seq<Row>)
    ensures EncodedRows(a + b) == EncodedRows(a) + EncodedRows(b)
  {
    if a == [] {
      assert a + b == b;
    } else {
      assert (a + b)[0] == a[0] && (a + b)[1..] == a[1..] + b;
      EncodedRowsAppend(a[1..], b);
    }
  }

  predicate Plain(s: string) {
    forall i :: 0 <= i < |s| ==> EscapedChar(s[i]) == [s[i]]
  }

  lemma {:induction false} PlainUnchanged(s: string)
    requires Plain(s)
    ensures Escaped(s) == s
  {
    if s != "" {
      PlainUnchanged(s[1..]);
    }
  }
}
