/** Two notions that the models share. */
module Collections {

  ghost function Elems<T>(s: seq<T>): set<T> {
    set x | x in s
  }

  /** Nothing occurs twice. */
  ghost predicate Distinct<T>(s: seq<T>) {
    forall i, j :: 0 <= i < j < |s| ==> s[i] != s[j]
  }
}
