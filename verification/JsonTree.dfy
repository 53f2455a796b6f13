/** JSON documents as the SAX reader and the DOM of src/stage.cpp present them. */
module JsonTree {
  import opened CStrings

  /** Integers keep their kind; other numbers are held by their six-decimal value, in millionths. */
  datatype Json =
    | Null
    | Bool(b: bool)
    | Int(i: int)
    | Dec(millionths: int)
    | Str(s: string)
    | Arr(elems: seq<Json>)
    | Obj(members: seq<Member>)
  {
    predicate Scalar() {
      !Arr? && !Obj?
    }

    predicate Number() {
      Int? || Dec?
    }
  }

  datatype Member = Member(name: string, value: Json)

  predicate UniqueNames(ms: seq<Member>) {
    forall i, j :: 0 <= i < j < |ms| ==> ms[i].name != ms[j].name
  }

  /** Names that a JSON Pointer carries unescaped and a C string carries whole. */
  predicate CleanName(name: string) {
    NUL !in name && '/' !in name && '~' !in name
  }

  /** Unique clean names and NUL-free strings at every depth. */
  predicate Clean(v: Json) {
    match v
    case Str(s) => NUL !in s
    case Arr(elems) => forall i :: 0 <= i < |elems| ==> Clean(elems[i])
    case Obj(members) =>
      && UniqueNames(members)
      && (forall i :: 0 <= i < |members| ==> CleanName(members[i].name))
      && (forall i :: 0 <= i < |members| ==> Clean(members[i].value))
    case _ => true
  }

  /** Index of the first member called name, or the number of members. */
  function FindMember(ms: seq<Member>, name: string): (k: nat)
    ensures k <= |ms|
    ensures k < |ms| ==> ms[k].name == name
    ensures forall i :: 0 <= i < k ==> ms[i].name != name
  {
    if ms == [] || ms[0].name == name then 0 else 1 + FindMember(ms[1..], name)
  }

  lemma FindUnique(ms: seq<Member>, k: nat)
    requires UniqueNames(ms) && k < |ms|
    ensures FindMember(ms, ms[k].name) == k
  {
    var f := FindMember(ms, ms[k].name);
    assert f <= k;
  }
}
