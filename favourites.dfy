/** The favourite lines store: the list of favourite line ids and the list
    of ids unfavourited since the favourites tab was last left, which that
    tab keeps on screen so that an accidental unfavourite can be undone.
    React's state updates are taken to run one after the other. */
module Favourites {
  import opened Sequences


  /** `s.filter(id => id !== x)`. */
  function Without(s: seq<string>, x: string): (r: seq<string>)
    ensures x !in r
    ensures forall y :: y != x ==> (y in r <==> y in s)
    ensures |r| <= |s|
  {
    if s == [] then []
    else (if s[0] == x then [] else [s[0]]) + Without(s[1..], x)
  }

  /** Filtering out an id that is not there changes nothing. */
  lemma {:induction false} WithoutAbsent(s: seq<string>, x: string)
    requires x !in s
    ensures Without(s, x) == s
  {
    if s != [] {
      WithoutAbsent(s[1..], x);
      assert s == [s[0]] + s[1..];
    }
  }

  lemma {:induction false} WithoutAppend(a: seq<string>, b: seq<string>, x: string)
    ensures Without(a + b, x) == Without(a, x) + Without(b, x)
  {
    if a != [] {
      assert (a + b)[1..] == a[1..] + b;
      WithoutAppend(a[1..], b, x);
    } else {
      assert a + b == b;
    }
  }

  /** Filtering an id out twice is filtering it out once. */
  lemma WithoutTwice(s: seq<string>, x: string)
    ensures Without(Without(s, x), x) == Without(s, x)
  {
    WithoutAbsent(Without(s, x), x);
  }

  /** Appending the id, then filtering it out, leaves the others as they were. */
  lemma WithoutAppended(s: seq<string>, x: string)
    ensures Without(s + [x], x) == Without(s, x)
  {
    WithoutAppend(s, [x], x);
    assert Without([x], x) == [];
  }

  lemma {:induction false} WithoutKeepsNoDup(s: seq<string>, x: string)
    requires NoDup(s)
    ensures NoDup(Without(s, x))
  {
    if s != [] {
      assert NoDup(s[1..]);
      WithoutKeepsNoDup(s[1..], x);
      var rest := Without(s[1..], x);
      assert s[0] !in s[1..];
      assert s[0] !in rest;
    }
  }

  /** The two lists of the store. */
  datatype Lists = Lists(favouriteLines: seq<string>, recentlyUnfavorited: seq<string>)

  /** The store's invariant: neither list repeats an id, and no id is both
      a favourite and recently unfavourited. */
  predicate Consistent(l: Lists)
  {
    NoDup(l.favouriteLines) && NoDup(l.recentlyUnfavorited) &&
    forall id <- l.favouriteLines :: id !in l.recentlyUnfavorited
  }

  /** toggleFavouriteLine: a favourite is filtered out of the favourites and
      appended to the recently unfavourited; any other id is appended to the
      favourites and filtered out of the recently unfavourited. */
  function Toggled(l: Lists, id: string): Lists
  {
    if id in l.favouriteLines then
      Lists(Without(l.favouriteLines, id), l.recentlyUnfavorited + [id])
    else
      Lists(l.favouriteLines + [id], Without(l.recentlyUnfavorited, id))
  }

  /** A toggle flips the id's membership of the favourites, and the id is
      recently unfavourited afterwards exactly when it was a favourite. */
  lemma ToggleFlips(l: Lists, id: string)
    ensures id in Toggled(l, id).favouriteLines <==> id !in l.favouriteLines
    ensures id in Toggled(l, id).recentlyUnfavorited <==> id in l.favouriteLines
  {
  }

  /** A toggle leaves every other id where it was: with the toggled id
      filtered out, both lists are what they were, members and order. */
  lemma ToggleLeavesOthers(l: Lists, id: string)
    ensures Without(Toggled(l, id).favouriteLines, id) == Without(l.favouriteLines, id)
    ensures Without(Toggled(l, id).recentlyUnfavorited, id) == Without(l.recentlyUnfavorited, id)
  {
    if id in l.favouriteLines {
      WithoutTwice(l.favouriteLines, id);
      WithoutAppended(l.recentlyUnfavorited, id);
    } else {
      WithoutAppended(l.favouriteLines, id);
      WithoutTwice(l.recentlyUnfavorited, id);
    }
  }

  /** A toggle keeps the store consistent; in particular favourites without
      repetitions stay so, because an id is appended only when absent. */
  lemma ToggleKeepsConsistent(l: Lists, id: string)
    requires Consistent(l)
    ensures Consistent(Toggled(l, id))
  {
    var t := Toggled(l, id);
    if id in l.favouriteLines {
      WithoutKeepsNoDup(l.favouriteLines, id);
      assert id !in l.recentlyUnfavorited;
      assert NoDup(t.recentlyUnfavorited) by {
        forall i, j | 0 <= i < j < |t.recentlyUnfavorited|
          ensures t.recentlyUnfavorited[i] != t.recentlyUnfavorited[j]
        {
          if j == |l.recentlyUnfavorited| {
            assert t.recentlyUnfavorited[i] in l.recentlyUnfavorited;
          }
        }
      }
    } else {
      WithoutKeepsNoDup(l.recentlyUnfavorited, id);
      assert NoDup(t.favouriteLines) by {
        forall i, j | 0 <= i < j < |t.favouriteLines|
          ensures t.favouriteLines[i] != t.favouriteLines[j]
        {
          if j == |l.favouriteLines| {
            assert t.favouriteLines[i] in l.favouriteLines;
          }
        }
      }
      forall f <- t.favouriteLines ensures f !in t.recentlyUnfavorited {
        if f != id {
          assert f in l.favouriteLines;
        }
      }
    }
  }

  /** Toggling twice: a line that was not a favourite ends as it began in
      the favourites and at the end of the recently unfavourited; a line
      that was a favourite ends at the end of the favourites and out of the
      recently unfavourited. */
  lemma ToggleTwice(l: Lists, id: string)
    ensures id !in l.favouriteLines ==>
      Toggled(Toggled(l, id), id) ==
        Lists(l.favouriteLines, Without(l.recentlyUnfavorited, id) + [id])
    ensures id in l.favouriteLines ==>
      Toggled(Toggled(l, id), id) ==
        Lists(Without(l.favouriteLines, id) + [id], Without(l.recentlyUnfavorited, id))
  {
    if id !in l.favouriteLines {
      WithoutAppended(l.favouriteLines, id);
      WithoutAbsent(l.favouriteLines, id);
    } else {
      WithoutAppended(l.recentlyUnfavorited, id);
    }
  }

  /** FavouritesProvider's state. */
  class FavouritesProvider {
    var favouriteLines: seq<string>
    var recentlyUnfavorited: seq<string>

    function State(): Lists
      reads this
    {
      Lists(favouriteLines, recentlyUnfavorited)
    }

    ghost predicate Valid()
      reads this
    {
      Consistent(State())
    }

    /** Both lists start empty. */
    constructor ()
      ensures favouriteLines == [] && recentlyUnfavorited == []
      ensures Valid()
    {
      favouriteLines := [];
      recentlyUnfavorited := [];
    }

    /** toggleFavouriteLine, its two state updates applied in turn. */
    method ToggleFavouriteLine(lineId: string)
      modifies this
      ensures State() == Toggled(old(State()), lineId)
      ensures old(Valid()) ==> Valid()
    {
      if Valid() {
        ToggleKeepsConsistent(State(), lineId);
      }
      if lineId in favouriteLines {
        recentlyUnfavorited := recentlyUnfavorited + [lineId];
        favouriteLines := Without(favouriteLines, lineId);
      } else {
        recentlyUnfavorited := Without(recentlyUnfavorited, lineId);
        favouriteLines := favouriteLines + [lineId];
      }
    }

    /** clearRecentlyUnfavorited. */
    method ClearRecentlyUnfavorited()
      modifies this
      ensures recentlyUnfavorited == []
      ensures favouriteLines == old(favouriteLines)
      ensures old(Valid()) ==> Valid()
    {
      recentlyUnfavorited := [];
    }
  }
}
