/** JSON Pointers (RFC 6901) resolved from the document root, and positions in the tree. */
module JsonPointer {
  import opened Wrappers
  import opened CStrings
  import opened Decimal
  import opened JsonTree

  datatype Tokens = Invalid | Tokens(names: seq<string>)

  // ---- Pointer text (RFC 6901 sections 3 and 4) -----------------------------------------------

  function TokenEnd(s: string): (n: nat)
    ensures n <= |s| && '/' !in s[..n]
    ensures n < |s| ==> s[n] == '/'
  {
    if s == "" || s[0] == '/' then 0 else 1 + TokenEnd(s[1..])
  }

  predicate ValidToken(s: string) {
    s == "" ||
    if s[0] == '~' then |s| > 1 && (s[1] == '0' || s[1] == '1') && ValidToken(s[2..]) else ValidToken(s[1..])
  }

  function UnescapedToken(s: string): string
    requires ValidToken(s)
  {
    if s == "" then ""
    else if s[0] == '~' then (if s[1] == '0' then "~" else "/") + UnescapedToken(s[2..])
    else [s[0]] + UnescapedToken(s[1..])
  }

  function ParsePointer(s: string): Tokens {
    if s == "" then Tokens([])
    else if s[0] != '/' then Invalid
    else
      var n := TokenEnd(s[1..]);
      var token := s[1..][..n];
      match ParsePointer(s[1..][n..])
      case Invalid => Invalid
      case Tokens(names) => if ValidToken(token) then Tokens([UnescapedToken(token)] + names) else Invalid
  }

  /** What process_json_record writes for a path: names behind slashes, unescaped. */
  function PointerText(names: seq<string>): string {
    if names == [] then "" else PointerText(names[..|names| - 1]) + "/" + names[|names| - 1]
  }

  lemma {:induction false} CleanToken(s: string)
    requires '~' !in s
    ensures ValidToken(s) && UnescapedToken(s) == s
  {
    if s != "" {
      CleanToken(s[1..]);
      assert s == [s[0]] + s[1..];
    }
  }

  lemma {:induction false} TokenEndOf(name: string, rest: string)
    requires '/' !in name
    requires rest != "" ==> rest[0] == '/'
    ensures TokenEnd(name + rest) == |name|
    ensures (name + rest)[..|name|] == name && (name + rest)[|name|..] == rest
  {
    if name == "" {
      assert name + rest == rest;
    } else {
      assert (name + rest)[1..] == name[1..] + rest;
      TokenEndOf(name[1..], rest);
    }
  }

  lemma {:induction false} PointerTextHead(first: string, names: seq<string>)
    ensures PointerText([first] + names) == "/" + (first + PointerText(names))
  {
    var all := [first] + names;
    if names == [] {
      assert all[..0] == [] && all == [first];
      assert "" + "/" + first == "/" + (first + "");
    } else {
      var n := |names| - 1;
      PointerTextHead(first, names[..n]);
      assert all[..|all| - 1] == [first] + names[..n];
      Assoc("/", first + PointerText(names[..n]), "/" + names[n]);
      Assoc(first, PointerText(names[..n]), "/" + names[n]);
      Assoc("/" + (first + PointerText(names[..n])), "/", names[n]);
      Assoc(PointerText(names[..n]), "/", names[n]);
    }
  }

  predicate CleanNames(names: seq<string>) {
    forall i :: 0 <= i < |names| ==> CleanName(names[i])
  }

  // ---- Resolution -----------------------------------------------------------------------------

  /** The array index a token denotes, if any. */
  function IndexOf(token: string): Option<nat> {
    if token != "" && AllDigits(token) && (token[0] == '0' ==> |token| == 1) then Some(DigitsValue(token)) else None
  }

  lemma IndexOfNat(n: nat)
    ensures IndexOf(NatText(n)) == Some(n)
  {
    NatTextValue(n);
  }

  function GetPointer(v: Json, names: seq<string>): Option<Json> {
    if names == [] then Some(v)
    else
      match v
      case Obj(members) =>
        var k := FindMember(members, names[0]);
        if k < |members| then GetPointer(members[k].value, names[1..]) else None
      case Arr(elems) =>
        var k := IndexOf(names[0]);
        if k.Some? && k.value < |elems| then GetPointer(elems[k.value], names[1..]) else None
      case _ => None
  }

  function Nulls(n: nat): (r: seq<Json>)
    ensures |r| == n
  {
    if n == 0 then [] else [Null] + Nulls(n - 1)
  }

  /** Stores w at a path, creating what is missing on the way as RapidJSON's Pointer::Set does. */
  function SetPointer(v: Json, names: seq<string>, w: Json): Json
    decreases |names|
  {
    if names == [] then w
    else
      var k := IndexOf(names[0]);
      if v.Arr? && (k.Some? || names[0] == "-") then
        var i := if k.Some? then k.value else |v.elems|;
        var elems := if i < |v.elems| then v.elems else v.elems + Nulls(i + 1 - |v.elems|);
        Arr(elems[i := SetPointer(elems[i], names[1..], w)])
      else if v.Obj? || k.None? then
        var members := if v.Obj? then v.members else [];
        var j := FindMember(members, names[0]);
        if j < |members| then
          Obj(members[j := Member(names[0], SetPointer(members[j].value, names[1..], w))])
        else
          Obj(members + [Member(names[0], SetPointer(Null, names[1..], w))])
      else
        Arr(Nulls(k.value) + [SetPointer(Null, names[1..], w)])
  }

  // ---- Positions ------------------------------------------------------------------------------

  /** A node of the tree by the positions to follow from the root: what a node pointer designates. */
  type Position = seq<nat>

  function ChildCount(v: Json): nat {
    match v
    case Arr(elems) => |elems|
    case Obj(members) => |members|
    case _ => 0
  }

  function Child(v: Json, k: nat): Json
    requires k < ChildCount(v)
  {
    if v.Arr? then v.elems[k] else v.members[k].value
  }

  function ChildName(v: Json, k: nat): string
    requires k < ChildCount(v)
  {
    if v.Arr? then NatText(k) else v.members[k].name
  }

  function WithChild(v: Json, k: nat, w: Json): (r: Json)
    requires k < ChildCount(v)
    ensures ChildCount(r) == ChildCount(v)
  {
    if v.Arr? then Arr(v.elems[k := w]) else Obj(v.members[k := Member(v.members[k].name, w)])
  }

  predicate ValidPosition(v: Json, at: Position) {
    at == [] || (at[0] < ChildCount(v) && ValidPosition(Child(v, at[0]), at[1..]))
  }

  function NodeAt(v: Json, at: Position): Json
    requires ValidPosition(v, at)
  {
    if at == [] then v else NodeAt(Child(v, at[0]), at[1..])
  }

  function PutAt(v: Json, at: Position, w: Json): Json
    requires ValidPosition(v, at)
  {
    if at == [] then w else WithChild(v, at[0], PutAt(Child(v, at[0]), at[1..], w))
  }

  function NamesAt(v: Json, at: Position): (names: seq<string>)
    requires ValidPosition(v, at)
    ensures |names| == |at|
  {
    if at == [] then [] else [ChildName(v, at[0])] + NamesAt(Child(v, at[0]), at[1..])
  }

  lemma NatTextClean(n: nat)
    ensures CleanName(NatText(n))
  {
    assert !IsDigit('/') && !IsDigit('~') && !IsDigit(NUL);
  }

  lemma {:induction false} NamesAtClean(v: Json, at: Position)
    requires Clean(v) && ValidPosition(v, at)
    ensures CleanNames(NamesAt(v, at)) && Clean(NodeAt(v, at))
  {
    if at != [] {
      NatTextClean(at[0]);
      NamesAtClean(Child(v, at[0]), at[1..]);
    }
  }

  /** No object repeats a name, at any depth. */
  predicate Unambiguous(v: Json) {
    match v
    case Arr(elems) => forall i :: 0 <= i < |elems| ==> Unambiguous(elems[i])
    case Obj(members) =>
      UniqueNames(members) && forall i :: 0 <= i < |members| ==> Unambiguous(members[i].value)
    case _ => true
  }

  lemma {:induction false} CleanUnambiguous(v: Json)
    requires Clean(v)
    ensures Unambiguous(v)
  {
    if !v.Scalar() {
      forall k | 0 <= k < ChildCount(v)
        ensures Unambiguous(Child(v, k))
      {
        CleanUnambiguous(Child(v, k));
      }
      assert v.Arr? ==> forall i :: 0 <= i < |v.elems| ==> v.elems[i] == Child(v, i);
      assert v.Obj? ==> forall i :: 0 <= i < |v.members| ==> v.members[i].value == Child(v, i);
    }
  }

  /** Setting by pointer from the root replaces exactly the node the traversal stands on. */
  lemma {:induction false} SetReachesNode(v: Json, at: Position, w: Json)
    requires Unambiguous(v) && ValidPosition(v, at)
    ensures SetPointer(v, NamesAt(v, at), w) == PutAt(v, at, w)
  {
    if at != [] {
      var names := NamesAt(v, at);
      assert names[1..] == NamesAt(Child(v, at[0]), at[1..]);
      SetReachesNode(Child(v, at[0]), at[1..], w);
      if v.Arr? {
        IndexOfNat(at[0]);
      } else {
        FindUnique(v.members, at[0]);
      }
    }
  }

  /** Looking up by the names on a path finds exactly the node at its end. */
  lemma {:induction false} GetReachesNode(v: Json, at: Position)
    requires Unambiguous(v) && ValidPosition(v, at)
    ensures GetPointer(v, NamesAt(v, at)) == Some(NodeAt(v, at))
  {
    if at != [] {
      assert NamesAt(v, at)[1..] == NamesAt(Child(v, at[0]), at[1..]);
      GetReachesNode(Child(v, at[0]), at[1..]);
      if v.Arr? {
        IndexOfNat(at[0]);
      } else {
        FindUnique(v.members, at[0]);
      }
    }
  }

  // ---- Names that need escaping ----------------------------------------------------------------

  /** A name that a pointer carries unescaped. */
  predicate Plain(name: string) {
    '/' !in name && '~' !in name
  }

  predicate PlainNames(names: seq<string>) {
    forall i :: 0 <= i < |names| ==> Plain(names[i])
  }

  /** RFC 6901 unescaping only shortens. */
  lemma {:induction false} UnescapedShorter(s: string)
    requires ValidToken(s)
    ensures |UnescapedToken(s)| <= |s|
    ensures '~' in s ==> |UnescapedToken(s)| < |s|
  {
    if s != "" {
      if s[0] == '~' {
        UnescapedShorter(s[2..]);
      } else {
        UnescapedShorter(s[1..]);
        assert s == [s[0]] + s[1..];
      }
    }
  }

  /** A name with a slash ends its token early. */
  lemma {:induction false} TokenEndsEarly(name: string, rest: string)
    requires '/' in name
    ensures TokenEnd(name + rest) < |name|
  {
    if name[0] != '/' {
      assert (name + rest)[1..] == name[1..] + rest;
      assert name == [name[0]] + name[1..];
      TokenEndsEarly(name[1..], rest);
    }
  }

  /** What a plain first name leaves to parse. */
  lemma PlainFirst(name: string, rest: string)
    requires Plain(name) && (rest != "" ==> rest[0] == '/')
    ensures ParsePointer("/" + (name + rest)) ==
      match ParsePointer(rest) case Invalid => Invalid case Tokens(names) => Tokens([name] + names)
  {
    TokenEndOf(name, rest);
    CleanToken(name);
    assert ("/" + (name + rest))[1..] == name + rest;
  }

  /** Any other first name, if it parses at all, yields a shorter first token. */
  lemma OtherFirst(name: string, rest: string)
    requires !Plain(name) && (rest != "" ==> rest[0] == '/')
    ensures
      var parsed := ParsePointer("/" + (name + rest));
      parsed.Tokens? ==> parsed.names != [] && |parsed.names[0]| < |name|
  {
    var s := name + rest;
    assert ("/" + s)[1..] == s;
    var token := s[..TokenEnd(s)];
    if '/' in name {
      TokenEndsEarly(name, rest);
    } else {
      TokenEndOf(name, rest);
    }
    if ValidToken(token) {
      UnescapedShorter(token);
    }
  }

  lemma PointerTextStarts(names: seq<string>)
    ensures names != [] ==> PointerText(names) != "" && PointerText(names)[0] == '/'
  {
    if names != [] {
      PointerTextHead(names[0], names[1..]);
      assert names == [names[0]] + names[1..];
    }
  }

  /** The path text parses back to the path if and only if no name holds a slash or a tilde. */
  lemma {:induction false} PathParsesIffPlain(names: seq<string>)
    ensures ParsePointer(PointerText(names)) == Tokens(names) <==> PlainNames(names)
  {
    if names != [] {
      var rest := PointerText(names[1..]);
      assert names == [names[0]] + names[1..];
      PointerTextHead(names[0], names[1..]);
      PointerTextStarts(names[1..]);
      if Plain(names[0]) {
        PlainFirst(names[0], rest);
        PathParsesIffPlain(names[1..]);
        assert PlainNames(names) <==> PlainNames(names[1..]) by {
          assert forall i :: 0 < i < |names| ==> names[i] == names[1..][i - 1];
        }
        if ParsePointer(rest).Tokens? {
          assert ([names[0]] + ParsePointer(rest).names)[1..] == ParsePointer(rest).names;
        }
      } else {
        OtherFirst(names[0], rest);
      }
    }
  }

  lemma PointerTextParses(names: seq<string>)
    requires CleanNames(names)
    ensures ParsePointer(PointerText(names)) == Tokens(names)
    ensures names != [] ==> PointerText(names) != "" && PointerText(names)[0] == '/'
  {
    PathParsesIffPlain(names);
    PointerTextStarts(names);
  }

  /** Pointer(text).Set(root, w). A text that is no pointer leaves no tokens, so that the root itself is set. */
  function SetByText(v: Json, text: string, w: Json): Json {
    match ParsePointer(text)
    case Invalid => w
    case Tokens(names) => SetPointer(v, names, w)
  }

  /** Every tilde is followed by 0 or 1. */
  predicate WellEscaped(s: string) {
    forall i :: 0 <= i < |s| && s[i] == '~' ==> i + 1 < |s| && (s[i + 1] == '0' || s[i + 1] == '1')
  }

  lemma {:induction false} ValidIffWellEscaped(s: string)
    ensures ValidToken(s) <==> WellEscaped(s)
    decreases |s|
  {
    if s != "" {
      if s[0] != '~' {
        ValidIffWellEscaped(s[1..]);
        assert forall i :: 0 < i < |s| ==> s[i] == s[1..][i - 1];
      } else if |s| > 1 {
        ValidIffWellEscaped(s[2..]);
        assert forall i :: 1 < i < |s| ==> s[i] == s[2..][i - 2];
      }
    }
  }

  lemma WellEscapedSplits(a: string, b: string)
    requires b != "" ==> b[0] == '/'
    ensures WellEscaped(a + b) <==> WellEscaped(a) && WellEscaped(b)
  {
    var s := a + b;
    assert forall i :: 0 <= i < |a| ==> s[i] == a[i];
    assert forall i :: 0 <= i < |b| ==> s[|a| + i] == b[i];
    if WellEscaped(s) {
      forall i | 0 <= i < |a| && a[i] == '~'
        ensures i + 1 < |a| && (a[i + 1] == '0' || a[i + 1] == '1')
      {
        assert s[i] == '~';
      }
      forall i | 0 <= i < |b| && b[i] == '~'
        ensures i + 1 < |b| && (b[i + 1] == '0' || b[i + 1] == '1')
      {
        assert s[|a| + i] == '~';
      }
    }
  }

  /** The first token and the rest. */
  lemma ParsesByToken(s: string)
    requires s != "" && s[0] == '/'
    ensures
      var n := TokenEnd(s[1..]);
      ParsePointer(s).Tokens? <==> ValidToken(s[1..][..n]) && ParsePointer(s[1..][n..]).Tokens?
  {
  }

  lemma WellEscapedByToken(s: string)
    requires s != "" && s[0] == '/'
    ensures
      var n := TokenEnd(s[1..]);
      WellEscaped(s) <==> ValidToken(s[1..][..n]) && WellEscaped(s[1..][n..])
  {
    var rest := s[1..];
    var n := TokenEnd(rest);
    assert s == "/" + rest && rest == rest[..n] + rest[n..];
    SlashBefore(rest);
    WellEscapedSplits(rest[..n], rest[n..]);
    ValidIffWellEscaped(rest[..n]);
  }

  lemma {:induction false} ParsesIffWellEscaped(s: string)
    requires s != "" ==> s[0] == '/'
    ensures ParsePointer(s).Tokens? <==> WellEscaped(s)
    decreases |s|
  {
    if s != "" {
      ParsesByToken(s);
      WellEscapedByToken(s);
      ParsesIffWellEscaped(s[1..][TokenEnd(s[1..])..]);
    }
  }

  predicate AllWellEscaped(names: seq<string>) {
    forall i :: 0 <= i < |names| ==> WellEscaped(names[i])
  }

  lemma SlashBefore(s: string)
    ensures WellEscaped("/" + s) <==> WellEscaped(s)
  {
    var t := "/" + s;
    assert forall i :: 0 <= i < |s| ==> t[i + 1] == s[i];
    if WellEscaped(t) {
      forall i | 0 <= i < |s| && s[i] == '~'
        ensures i + 1 < |s| && (s[i + 1] == '0' || s[i + 1] == '1')
      {
        assert t[i + 1] == '~';
      }
    }
  }

  lemma TextWellEscaped(first: string, names: seq<string>)
    ensures WellEscaped(PointerText([first] + names)) <==> WellEscaped(first) && WellEscaped(PointerText(names))
  {
    PointerTextHead(first, names);
    PointerTextStarts(names);
    SlashBefore(first + PointerText(names));
    WellEscapedSplits(first, PointerText(names));
  }

  lemma {:induction false} PathWellEscaped(names: seq<string>)
    ensures WellEscaped(PointerText(names)) <==> AllWellEscaped(names)
  {
    if names != [] {
      assert names == [names[0]] + names[1..];
      TextWellEscaped(names[0], names[1..]);
      PathWellEscaped(names[1..]);
      assert AllWellEscaped(names) <==> WellEscaped(names[0]) && AllWellEscaped(names[1..]) by {
        assert forall i :: 0 < i < |names| ==> names[i] == names[1..][i - 1];
      }
    }
  }

  /** The path text is a pointer if and only if in every name each tilde is followed by 0 or 1. */
  lemma PathIsPointerIff(names: seq<string>)
    ensures ParsePointer(PointerText(names)).Tokens? <==> AllWellEscaped(names)
  {
    PointerTextStarts(names);
    ParsesIffWellEscaped(PointerText(names));
    PathWellEscaped(names);
  }

  lemma ChildPlain(v: Json, k: nat)
    requires k < ChildCount(v) && !v.Obj?
    ensures Plain(ChildName(v, k))
  {
    NatTextClean(k);
  }

  /** Setting through the text of another name leaves the child alone. */
  lemma OtherMemberKept(v: Json, k: nat, names: seq<string>, w: Json)
    requires v.Obj? && UniqueNames(v.members) && k < |v.members|
    requires names != [] && names[0] != v.members[k].name
    ensures
      var u := SetPointer(v, names, w);
      u.Obj? && k < |u.members| && u.members[k] == v.members[k]
  {
  }

  lemma ThroughChild(v: Json, k: nat, names: seq<string>, w: Json)
    requires Unambiguous(v) && k < ChildCount(v)
    ensures SetPointer(v, [ChildName(v, k)] + names, w) == WithChild(v, k, SetPointer(Child(v, k), names, w))
  {
    assert ([ChildName(v, k)] + names)[1..] == names;
    if v.Arr? {
      IndexOfNat(k);
    } else {
      FindUnique(v.members, k);
    }
  }

  /** The node at the position is what it was. */
  predicate Survives(v: Json, at: Position, after: Json)
    requires ValidPosition(v, at)
  {
    ValidPosition(after, at) && NodeAt(after, at) == NodeAt(v, at)
  }

  /** Where a name on the path holds a slash or a tilde and the text is a pointer all the same, setting through it never
      changes the node at the path's end, whatever the tree and the value. */
  lemma {:induction false} ListedValueSurvives(v: Json, at: Position, w: Json)
    requires Unambiguous(v) && ValidPosition(v, at) && !PlainNames(NamesAt(v, at)) && AllWellEscaped(NamesAt(v, at))
    ensures Survives(v, at, SetByText(v, PointerText(NamesAt(v, at)), w))
    decreases |at|
  {
    var names, child := NamesAt(v, at), Child(v, at[0]);
    var below := NamesAt(child, at[1..]);
    assert names == [names[0]] + below && names[1..] == below;
    PathIsPointerIff(names);
    if Plain(names[0]) {
      assert !PlainNames(below) && AllWellEscaped(below) by {
        assert forall i :: 0 < i < |names| ==> names[i] == below[i - 1];
      }
      PointerTextHead(names[0], below);
      PointerTextStarts(below);
      PlainFirst(names[0], PointerText(below));
      PathIsPointerIff(below);
      ListedValueSurvives(child, at[1..], w);
      ThroughChild(v, at[0], ParsePointer(PointerText(below)).names, w);
    } else {
      SurvivesHere(v, at, w);
    }
  }

  lemma FirstTokenDiffers(names: seq<string>)
    requires names != [] && !Plain(names[0])
    ensures
      var parsed := ParsePointer(PointerText(names));
      parsed.Tokens? ==> parsed.names != [] && parsed.names[0] != names[0]
  {
    assert names == [names[0]] + names[1..];
    PointerTextHead(names[0], names[1..]);
    PointerTextStarts(names[1..]);
    OtherFirst(names[0], PointerText(names[1..]));
  }

  lemma SurvivesHere(v: Json, at: Position, w: Json)
    requires Unambiguous(v) && ValidPosition(v, at) && at != [] && !Plain(NamesAt(v, at)[0])
    requires ParsePointer(PointerText(NamesAt(v, at))).Tokens?
    ensures Survives(v, at, SetByText(v, PointerText(NamesAt(v, at)), w))
  {
    var names := NamesAt(v, at);
    FirstTokenDiffers(names);
    if v.Arr? {
      ChildPlain(v, at[0]);
    }
    OtherMemberKept(v, at[0], ParsePointer(PointerText(names)).names, w);
  }

  lemma {:induction false} PartsDiffer(v: Json, at: Position)
    requires ValidPosition(v, at)
    ensures at == [] || NodeAt(v, at) < v
  {
    if at != [] {
      PartsDiffer(Child(v, at[0]), at[1..]);
    }
  }

  /** What setting a scalar through a path's text does to the node at its end: replaces it on a plain path; leaves it
      alone if the text is some other pointer; and overwrites the whole root if it is none. */
  lemma SetThroughPath(v: Json, at: Position, w: Json)
    requires Unambiguous(v) && ValidPosition(v, at)
    ensures
      var names, after := NamesAt(v, at), SetByText(v, PointerText(NamesAt(v, at)), w);
      if PlainNames(names) then after == PutAt(v, at, w)
      else if AllWellEscaped(names) then Survives(v, at, after)
      else after == w
  {
    var names := NamesAt(v, at);
    if PlainNames(names) {
      PathParsesIffPlain(names);
      SetReachesNode(v, at, w);
    } else if AllWellEscaped(names) {
      ListedValueSurvives(v, at, w);
    } else {
      PathIsPointerIff(names);
    }
  }

  /** Setting a new value through the path's text replaces the node at its end if and only if no name on the path
      holds a slash or a tilde. */
  lemma SetByTextReachesIffPlain(v: Json, at: Position, w: Json)
    requires Unambiguous(v) && ValidPosition(v, at) && NodeAt(v, at) != w
    ensures SetByText(v, PointerText(NamesAt(v, at)), w) == PutAt(v, at, w) <==> PlainNames(NamesAt(v, at))
  {
    SetThroughPath(v, at, w);
    PutPut(v, at, w, w);
    PartsDiffer(PutAt(v, at, w), at);
  }

  /** The node survives the setting of another, scalar, value if and only if some name holds a slash or a tilde and
      every tilde is followed by 0 or 1. */
  lemma ValueSurvivesIff(v: Json, at: Position, w: Json)
    requires Unambiguous(v) && ValidPosition(v, at) && NodeAt(v, at) != w && w.Scalar()
    ensures Survives(v, at, SetByText(v, PointerText(NamesAt(v, at)), w)) <==>
      !PlainNames(NamesAt(v, at)) && AllWellEscaped(NamesAt(v, at))
  {
    SetThroughPath(v, at, w);
    PutPut(v, at, w, w);
  }

  // ---- Replacing nodes ------------------------------------------------------------------------

  lemma {:induction false} PutPut(v: Json, at: Position, w: Json, x: Json)
    requires ValidPosition(v, at)
    ensures ValidPosition(PutAt(v, at, w), at)
    ensures NodeAt(PutAt(v, at, w), at) == w
    ensures PutAt(PutAt(v, at, w), at, x) == PutAt(v, at, x)
    ensures NamesAt(PutAt(v, at, w), at) == NamesAt(v, at)
  {
    if at != [] {
      PutPut(Child(v, at[0]), at[1..], w, x);
      var u := PutAt(v, at, w);
      assert Child(u, at[0]) == PutAt(Child(v, at[0]), at[1..], w);
      assert ChildName(u, at[0]) == ChildName(v, at[0]);
    }
  }

  lemma {:induction false} PutSame(v: Json, at: Position)
    requires ValidPosition(v, at)
    ensures PutAt(v, at, NodeAt(v, at)) == v
  {
    if at != [] {
      PutSame(Child(v, at[0]), at[1..]);
    }
  }

  lemma {:induction false} PutClean(v: Json, at: Position, w: Json)
    requires ValidPosition(v, at) && Clean(v) && Clean(w)
    ensures Clean(PutAt(v, at, w))
  {
    if at != [] {
      PutClean(Child(v, at[0]), at[1..], w);
    }
  }

  /** One step below a position. */
  lemma {:induction false} Below(v: Json, at: Position, k: nat, w: Json)
    requires ValidPosition(v, at) && k < ChildCount(NodeAt(v, at))
    ensures ValidPosition(v, at + [k])
    ensures NodeAt(v, at + [k]) == Child(NodeAt(v, at), k)
    ensures NamesAt(v, at + [k]) == NamesAt(v, at) + [ChildName(NodeAt(v, at), k)]
    ensures PutAt(v, at + [k], w) == PutAt(v, at, WithChild(NodeAt(v, at), k, w))
  {
    var below := at + [k];
    if at == [] {
      assert below[1..] == [] && below[0] == k;
      PutSame(v, []);
    } else {
      assert below[1..] == at[1..] + [k] && below[0] == at[0];
      Below(Child(v, at[0]), at[1..], k, w);
    }
  }
}
