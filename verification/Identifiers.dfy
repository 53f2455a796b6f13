/** Names of tables, columns and constraints on the server. */
module Identifiers {

  /** Length of an identifier, and of the catalog's VARCHAR columns. */
  const NameLimit := 63

  /** Identifiers in DDL are cut to the limit. */
  function Truncated(name: string): string {
    if |name| <= NameLimit then name else name[..NameLimit]
  }

  predicate NoDuplicates(names: seq<string>) {
    forall i, j :: 0 <= i < j < |names| ==> names[i] != names[j]
  }

  function AllTruncated(names: seq<string>): (cut: seq<string>)
    ensures |cut| == |names| && forall i :: 0 <= i < |names| ==> cut[i] == Truncated(names[i])
  {
    seq(|names|, i requires 0 <= i < |names| => Truncated(names[i]))
  }

  /** What CREATE TABLE asks of its column names: none is empty, and they still differ when they are cut. */
  predicate Creatable(names: seq<string>) {
    "" !in names && NoDuplicates(AllTruncated(names))
  }

  /** The names are equal, or so are their first 63 characters. */
  predicate CutAlike(a: string, b: string) {
    a == b || (|a| >= 63 && |b| >= 63 && a[..63] == b[..63])
  }

  /** A table can be created if and only if no name is empty and no two are cut alike. */
  lemma CreatableIff(names: seq<string>)
    ensures Creatable(names) <==>
      (forall i :: 0 <= i < |names| ==> names[i] != "") &&
      (forall i, j :: 0 <= i < j < |names| ==> !CutAlike(names[i], names[j]))
  {
    forall i, j | 0 <= i < |names| && 0 <= j < |names|
      ensures AllTruncated(names)[i] == AllTruncated(names)[j] <==> CutAlike(names[i], names[j])
    {
    }
  }
}
