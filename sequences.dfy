/** Facts about sequences of ids shared by the simulator and the favourites store. */
module Sequences {

  /** No id occurs twice. */
  predicate NoDup(s: seq<string>)
  {
    forall i, j :: 0 <= i < j < |s| ==> s[i] != s[j]
  }
}
