/** SQL string constants: encode_str of src/dbtype.cpp and the server's reader of escape strings. */
module SqlText {
  import opened CStrings

  // ---- Writing --------------------------------------------------------------------------------

  function EscapedChar(c: char): string {
    if c == '\\' then "\\\\"
    else if c == '\'' then "''"
    else if c == '\U{8}' then "\\b"
    else if c == '\U{c}' then "\\f"
    else if c == '\n' then "\\n"
    else if c == '\r' then "\\r"
    else if c == '\t' then "\\t"
    else [c]
  }

  function Escaped(s: string): string {
    if s == "" then "" else EscapedChar(s[0]) + Escaped(s[1..])
  }

  lemma {:induction false} EscapedSnoc(s: string, c: char)
    ensures Escaped(s + [c]) == Escaped(s) + EscapedChar(c)
  {
    if s == "" {
      assert s + [c] == [c] && [c][1..] == "";
    } else {
      assert (s + [c])[1..] == s[1..] + [c];
      EscapedSnoc(s[1..], c);
    }
  }

  lemma EscapedGrows(open: string, s: string, p: nat)
    requires p < |s|
    ensures open + Escaped(s[..p + 1]) == open + Escaped(s[..p]) + EscapedChar(s[p])
  {
    EscapedSnoc(s[..p], s[p]);
    assert s[..p + 1] == s[..p] + [s[p]];
    Assoc(open, Escaped(s[..p]), EscapedChar(s[p]));
  }

  method EncodeStr(str: string, e: bool) returns (newstr: string)
    ensures newstr == (if e then "E'" else "'") + Escaped(CStr(str)) + "'"
  {
    var open := if e then "E'" else "'";
    newstr := open;
    var p := 0;
    ghost var s := CStr(str);
    while p < |str| && str[p] != NUL
      invariant p <= |s|
      invariant newstr == open + Escaped(s[..p])
    {
      var c := str[p];
      EscapedGrows(open, s, p);
      ghost var before := newstr;
      if c == '\\' {
        newstr := newstr + "\\\\";
      } else if c == '\'' {
        newstr := newstr + "''";
      } else if c == '\U{8}' {
        newstr := newstr + "\\b";
      } else if c == '\U{c}' {
        newstr := newstr + "\\f";
      } else if c == '\n' {
        newstr := newstr + "\\n";
      } else if c == '\r' {
        newstr := newstr + "\\r";
      } else if c == '\t' {
        newstr := newstr + "\\t";
      } else {
        newstr := newstr + [c];
      }
      assert newstr == before + EscapedChar(c);
      p := p + 1;
    }
    assert s[..p] == s;
    newstr := newstr + "'";
  }

  // ---- Reading --------------------------------------------------------------------------------

  datatype Read = Constant(value: string, rest: string) | Unterminated

  function Prepended(c: char, r: Read): Read {
    if r.Constant? then Constant([c] + r.value, r.rest) else r
  }

  function AfterBackslash(c: char): char {
    if c == 'b' then '\U{8}'
    else if c == 'f' then '\U{c}'
    else if c == 'n' then '\n'
    else if c == 'r' then '\r'
    else if c == 't' then '\t'
    else c
  }

  /** The characters of an escape string up to the quote that ends it; a doubled quote stands for one. */
  function ReadChars(s: string): Read
    decreases |s|
  {
    if s == "" then Unterminated
    else if s[0] == '\'' then
      if |s| > 1 && s[1] == '\'' then Prepended('\'', ReadChars(s[2..])) else Constant("", s[1..])
    else if s[0] == '\\' then
      if |s| == 1 then Unterminated
      else
        Prepended(AfterBackslash(s[1]), ReadChars(s[2..]))
    else Prepended(s[0], ReadChars(s[1..]))
  }

  function ReadConstant(s: string): Read {
    if "E'" <= s then ReadChars(s[2..]) else Unterminated
  }

  // ---- Round trip -----------------------------------------------------------------------------

  lemma CharReads(c: char, more: string)
    ensures ReadChars(EscapedChar(c) + more) == Prepended(c, ReadChars(more))
  {
    if c == '\'' {
      QuoteReads(more);
    } else if EscapedChar(c) == [c] {
      PlainReads(c, more);
    } else {
      BackslashReads(EscapedChar(c)[1], more);
      assert EscapedChar(c) == ['\\', EscapedChar(c)[1]];
    }
  }

  lemma QuoteReads(more: string)
    ensures ReadChars("''" + more) == Prepended('\'', ReadChars(more))
  {
    assert ("''" + more)[2..] == more;
  }

  lemma PlainReads(c: char, more: string)
    requires c != '\'' && c != '\\'
    ensures ReadChars([c] + more) == Prepended(c, ReadChars(more))
  {
    assert ([c] + more)[1..] == more;
  }

  lemma BackslashReads(c: char, more: string)
    ensures ReadChars(['\\', c] + more) == Prepended(AfterBackslash(c), ReadChars(more))
  {
    var s := ['\\', c] + more;
    assert s[2..] == more && s[1] == c;
  }

  lemma EndReads(rest: string)
    requires rest != "" ==> rest[0] != '\''
    ensures ReadChars("'" + rest) == Constant("", rest)
  {
    assert ("'" + rest)[1..] == rest;
  }

  lemma {:induction false} CharsRead(s: string, rest: string)
    requires rest != "" ==> rest[0] != '\''
    ensures ReadChars(Escaped(s) + ("'" + rest)) == Constant(s, rest)
  {
    var close := "'" + rest;
    if s == "" {
      assert Escaped(s) + close == close;
      EndReads(rest);
    } else {
      Assoc(EscapedChar(s[0]), Escaped(s[1..]), close);
      CharsRead(s[1..], rest);
      CharReads(s[0], Escaped(s[1..]) + close);
      assert s == [s[0]] + s[1..];
    }
  }

  /** The constant written for a string is read back as the string up to its first NUL, and it ends where it was
      meant to: no character of the string closes it early. */
  lemma ConstantReadsBack(s: string, rest: string)
    requires rest != "" ==> rest[0] != '\''
    ensures ReadConstant("E'" + Escaped(CStr(s)) + "'" + rest) == Constant(CStr(s), rest)
    ensures ReadConstant("E'" + Escaped(CStr(s)) + "'" + rest) == Constant(s, rest) <==> NUL !in s
  {
    var text := Escaped(CStr(s)) + ("'" + rest);
    Assoc("E'" + Escaped(CStr(s)), "'", rest);
    Assoc("E'", Escaped(CStr(s)), "'" + rest);
    assert ("E'" + text)[2..] == text;
    CharsRead(CStr(s), rest);
    if NUL !in s {
      CStrOfClean(s);
    }
  }
}
