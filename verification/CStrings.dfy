/** C strings as the encoders and comparators see them: characters up to the first NUL,
    ordered by strcmp, one character per byte. */
module CStrings {

  const NUL: char := '\0'

  /** The part of s that a `while (*p != '\0')` loop visits. */
  function CStr(s: string): (r: string)
    ensures NUL !in r
    ensures |r| <= |s| && r == s[..|r|]
    ensures |r| < |s| ==> s[|r|] == NUL
  {
    if s == "" || s[0] == NUL then "" else [s[0]] + CStr(s[1..])
  }

  lemma CStrOfClean(s: string)
    requires NUL !in s
    ensures CStr(s) == s
  {
    if |CStr(s)| < |s| {
      assert false;
    }
  }

  /** strcmp(a, b) < 0 on NUL-free strings. */
  predicate Less(a: string, b: string) {
    b != "" && (a == "" || a[0] < b[0] || (a[0] == b[0] && Less(a[1..], b[1..])))
  }

  lemma {:induction false} LessTotal(a: string, b: string)
    ensures a == b || Less(a, b) || Less(b, a)
    ensures !(Less(a, b) && Less(b, a))
    ensures a == b ==> !Less(a, b)
  {
    if a != "" && b != "" && a[0] == b[0] {
      LessTotal(a[1..], b[1..]);
      assert a == [a[0]] + a[1..] && b == [b[0]] + b[1..];
    }
  }

  lemma {:induction false} LessTransitive(a: string, b: string, c: string)
    requires Less(a, b) && Less(b, c)
    ensures Less(a, c)
  {
    if a != "" && a[0] == b[0] && b[0] == c[0] {
      LessTransitive(a[1..], b[1..], c[1..]);
    }
  }

  /** Up to p the strings agree, and there the first has ended or has the smaller character. */
  predicate SmallerAt(a: string, b: string, p: nat) {
    p <= |a| && p < |b| && a[..p] == b[..p] && (p < |a| ==> a[p] < b[p])
  }

  ghost predicate Smaller(a: string, b: string) {
    exists p :: SmallerAt(a, b, p)
  }

  lemma {:induction false} LessAtFirstDifference(a: string, b: string)
    ensures Less(a, b) <==> Smaller(a, b)
  {
    if b != "" && a != "" && a[0] == b[0] {
      LessAtFirstDifference(a[1..], b[1..]);
      if p: nat :| SmallerAt(a[1..], b[1..], p) {
        assert a[..p + 1] == [a[0]] + a[1..][..p] && b[..p + 1] == [b[0]] + b[1..][..p];
        assert SmallerAt(a, b, p + 1);
      }
      if p: nat :| SmallerAt(a, b, p) {
        assert p > 0;
        assert a[1..][..p - 1] == a[..p][1..] && b[1..][..p - 1] == b[..p][1..];
        assert SmallerAt(a[1..], b[1..], p - 1);
      }
    } else if b != "" {
      assert SmallerAt(a, b, 0) <==> Less(a, b);
      if p: nat :| SmallerAt(a, b, p) && p > 0 {
        assert a[..p][0] == b[..p][0];
      }
    }
  }

  lemma Assoc(a: string, b: string, c: string)
    ensures (a + b) + c == a + (b + c)
  {
  }
}
