/** src/camelcase.cpp: column names decoded from camel case by a three-character sliding window. */
module CamelCase {
  import opened CStrings

  predicate IsUpper(c: char) {
    'A' <= c <= 'Z'
  }

  function ToLower(c: char): char {
    if IsUpper(c) then c - 'A' + 'a' else c
  }

  function AppendUnderscoreChar(underscore: bool, ch: char, str: string): string {
    (if underscore then str + "_" else str) + [ch]
  }

  /** Decodes the middle character of a window; NUL stands for a missing neighbour. */
  method DecodeTriple(c1: char, c2: char, c3: char, str: string) returns (out: string)
    ensures c2 == NUL ==> out == str
    ensures c2 != NUL ==>
      var underscore := c1 != NUL && IsUpper(c2) && (!IsUpper(c1) || (c3 != NUL && !IsUpper(c3)));
      out == str + (if underscore then "_" else "") + [ToLower(c2)]
  {
    out := str;
    var c1u, c2u, c3u := IsUpper(c1), IsUpper(c2), IsUpper(c3);
    if c2 == NUL {
      return;
    }
    if (c1 == NUL && c2 != NUL && c3 != NUL) || (c1 == NUL && c2 != NUL && c3 == NUL) {
      out := AppendUnderscoreChar(false, ToLower(c2), str);
      return;
    }
    if c1 != NUL && c2 != NUL && c3 == NUL {
      if !c1u && c2u {
        out := AppendUnderscoreChar(true, ToLower(c2), str);
        return;
      }
      if c1u && c2u {
        out := AppendUnderscoreChar(false, ToLower(c2), str);
        return;
      }
      if (!c1u && !c2u) || (c1u && !c2u) {
        out := AppendUnderscoreChar(false, c2, str);
        return;
      }
      return;
    }
    // Windows with both neighbours.
    if (!c1u && !c2u && !c3u) || (c1u && !c2u && !c3u) || (!c1u && !c2u && c3u) || (c1u && !c2u && c3u) {
      out := AppendUnderscoreChar(false, c2, str);
      return;
    }
    if (!c1u && c2u && !c3u) || (c1u && c2u && !c3u) || (!c1u && c2u && c3u) {
      out := AppendUnderscoreChar(true, ToLower(c2), str);
      return;
    }
    if c1u && c2u && c3u {
      out := AppendUnderscoreChar(false, ToLower(c2), str);
      return;
    }
  }

  /** Where a word starts inside s: the positions that get an underscore. */
  predicate StartsWord(s: string, i: nat)
    requires i < |s|
  {
    i >= 1 && IsUpper(s[i]) && (!IsUpper(s[i - 1]) || (i + 1 < |s| && !IsUpper(s[i + 1])))
  }

  /** The decoding of the first n characters of s, by position. */
  function DecodedUpTo(s: string, n: nat): string
    requires n <= |s|
  {
    if n == 0 then ""
    else DecodedUpTo(s, n - 1) + (if StartsWord(s, n - 1) then "_" else "") + [ToLower(s[n - 1])]
  }

  function Decoded(s: string): string {
    DecodedUpTo(s, |s|)
  }

  method DecodeCamelCase(str: string) returns (decoded: string)
    ensures decoded == Decoded(CStr(str))
  {
    decoded := "";
    var c1, c2, c3 := NUL, NUL, NUL;
    var p := 0;
    ghost var s := CStr(str);
    while p < |str| && str[p] != NUL
      invariant p <= |s|
      invariant c3 == (if p >= 1 then s[p - 1] else NUL)
      invariant c2 == (if p >= 2 then s[p - 2] else NUL)
      invariant decoded == DecodedUpTo(s, if p >= 1 then p - 1 else 0)
    {
      c1 := c2;
      c2 := c3;
      c3 := str[p];
      decoded := DecodeTriple(c1, c2, c3, decoded);
      p := p + 1;
    }
    // The window moves on by one, past the end.
    c1 := c2;
    c2 := c3;
    c3 := NUL;
    decoded := DecodeTriple(c1, c2, c3, decoded);
  }

  /** Number of underscores inserted before or at position i. */
  function Inserted(s: string, n: nat): nat
    requires n <= |s|
  {
    if n == 0 then 0 else Inserted(s, n - 1) + (if StartsWord(s, n - 1) then 1 else 0)
  }

  /** Position of every input character in the output, its case, and the underscore before it. */
  lemma {:induction false} DecodedAt(s: string, n: nat, i: nat)
    requires i < n <= |s|
    ensures |DecodedUpTo(s, n)| == n + Inserted(s, n)
    ensures i + Inserted(s, i + 1) < |DecodedUpTo(s, n)|
    ensures DecodedUpTo(s, n)[i + Inserted(s, i + 1)] == ToLower(s[i])
    ensures StartsWord(s, i) ==> DecodedUpTo(s, n)[i + Inserted(s, i + 1) - 1] == '_'
    decreases n
  {
    if n > 1 {
      DecodedAt(s, n - 1, if i < n - 1 then i else 0);
    }
  }

  function Lowered(s: string): string {
    if s == "" then "" else [ToLower(s[0])] + Lowered(s[1..])
  }

  function WithoutUnderscores(s: string): string {
    if s == "" then "" else (if s[0] == '_' then "" else [s[0]]) + WithoutUnderscores(s[1..])
  }

  lemma {:induction false} WithoutUnderscoresAppend(a: string, b: string)
    ensures WithoutUnderscores(a + b) == WithoutUnderscores(a) + WithoutUnderscores(b)
  {
    if a == "" {
      assert a + b == b;
    } else {
      assert (a + b)[1..] == a[1..] + b;
      WithoutUnderscoresAppend(a[1..], b);
    }
  }

  lemma {:induction false} LoweredAppend(a: string, b: string)
    ensures Lowered(a + b) == Lowered(a) + Lowered(b)
  {
    if a == "" {
      assert a + b == b;
    } else {
      assert (a + b)[1..] == a[1..] + b;
      LoweredAppend(a[1..], b);
    }
  }

  lemma EraseOne(c: char, mark: string)
    requires mark == "" || mark == "_"
    ensures WithoutUnderscores(mark + [ToLower(c)]) == Lowered(WithoutUnderscores([c]))
  {
    WithoutUnderscoresAppend(mark, [ToLower(c)]);
    assert [c][1..] == "" && [ToLower(c)][1..] == "" && "_"[1..] == "";
  }

  lemma {:induction false} ErasePrefix(s: string, n: nat)
    requires n <= |s|
    ensures WithoutUnderscores(DecodedUpTo(s, n)) == Lowered(WithoutUnderscores(s[..n]))
  {
    if n == 0 {
      assert s[..0] == "";
    } else {
      var c := s[n - 1];
      var mark := if StartsWord(s, n - 1) then "_" else "";
      var before := DecodedUpTo(s, n - 1);
      ErasePrefix(s, n - 1);
      assert s[..n] == s[..n - 1] + [c];
      assert DecodedUpTo(s, n) == before + (mark + [ToLower(c)]);
      EraseOne(c, mark);
      WithoutUnderscoresAppend(s[..n - 1], [c]);
      WithoutUnderscoresAppend(before, mark + [ToLower(c)]);
      LoweredAppend(WithoutUnderscores(s[..n - 1]), WithoutUnderscores([c]));
    }
  }

  /** Underscores apart, decoding only changes case. */
  lemma DecodingKeepsLetters(s: string)
    ensures WithoutUnderscores(Decoded(s)) == Lowered(WithoutUnderscores(s))
  {
    ErasePrefix(s, |s|);
    assert s[..|s|] == s;
  }

  lemma {:induction false} LowerCaseFixed(s: string, n: nat)
    requires n <= |s|
    requires forall i :: 0 <= i < |s| ==> !IsUpper(s[i])
    ensures DecodedUpTo(s, n) == s[..n]
  {
    if n > 0 {
      LowerCaseFixed(s, n - 1);
      assert s[..n] == s[..n - 1] + [s[n - 1]];
    }
  }

  lemma {:induction false} NoUpperCase(s: string, n: nat)
    requires n <= |s|
    ensures forall i :: 0 <= i < |DecodedUpTo(s, n)| ==> !IsUpper(DecodedUpTo(s, n)[i])
  {
    if n > 0 {
      NoUpperCase(s, n - 1);
    }
  }

  /** A decoded name is its own decoding. */
  lemma DecodingIsIdempotent(s: string)
    ensures Decoded(Decoded(s)) == Decoded(s)
  {
    NoUpperCase(s, |s|);
    LowerCaseFixed(Decoded(s), |Decoded(s)|);
    assert Decoded(s)[..|Decoded(s)|] == Decoded(s);
  }
}
