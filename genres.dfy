/**
 * The genre helpers of the interactive run: the sorted list of distinct
 * genres, the case-insensitive lookup of a typed genre in it, and the pool
 * of songs a chosen genre selects (the whole catalog when it selects none).
 */
module Genres {
  import opened Wrappers
  import opened Text
  import opened Songs

  /** Python's string order: code point by code point, a proper prefix first. */
  predicate StrLess(a: string, b: string) {
    if a == [] then b != []
    else if b == [] then false
    else a[0] < b[0] || (a[0] == b[0] && StrLess(a[1..], b[1..]))
  }

  lemma {:induction false} StrLessIrreflexive(a: string)
    ensures !StrLess(a, a)
  {
    if a != [] {
      StrLessIrreflexive(a[1..]);
    }
  }

  lemma {:induction false} StrLessTransitive(a: string, b: string, c: string)
    requires StrLess(a, b) && StrLess(b, c)
    ensures StrLess(a, c)
  {
    if a != [] && a[0] == b[0] && b[0] == c[0] {
      StrLessTransitive(a[1..], b[1..], c[1..]);
    }
  }

  lemma {:induction false} StrLessTotal(a: string, b: string)
    requires a != b
    ensures StrLess(a, b) || StrLess(b, a)
  {
    if a != [] && b != [] && a[0] == b[0] {
      assert a == [a[0]] + a[1..] && b == [b[0]] + b[1..];
      StrLessTotal(a[1..], b[1..]);
    }
  }

  /** Strictly increasing: sorted and without repeats. */
  predicate StrictlySorted(xs: seq<string>) {
    forall i, j :: 0 <= i < j < |xs| ==> StrLess(xs[i], xs[j])
  }

  /** Adds g to a strictly sorted list, in its place, unless it is there already. */
  function InsertGenre(xs: seq<string>, g: string): (r: seq<string>)
    requires StrictlySorted(xs)
    ensures StrictlySorted(r)
    ensures forall x :: x in r <==> x in xs || x == g
  {
    if xs == [] then [g]
    else if g == xs[0] then xs
    else if StrLess(g, xs[0]) then
      assert forall j :: 0 < j < |xs| ==> StrLess(g, xs[j]) by {
        forall j | 0 < j < |xs| ensures StrLess(g, xs[j]) {
          StrLessTransitive(g, xs[0], xs[j]);
        }
      }
      [g] + xs
    else
      StrLessTotal(g, xs[0]);
      var rest := InsertGenre(xs[1..], g);
      assert forall x :: x in rest ==> StrLess(xs[0], x) by {
        forall x | x in rest ensures StrLess(xs[0], x) {
          if x != g {
            var j :| 0 <= j < |xs[1..]| && xs[1..][j] == x;
            assert xs[j + 1] == x;
          }
        }
      }
      assert xs == [xs[0]] + xs[1..];
      [xs[0]] + rest
  }

  /** The distinct genres of the catalog, in increasing string order. */
  function GenreList(songs: seq<Song>): (r: seq<string>)
    ensures StrictlySorted(r)
    ensures forall g :: g in r <==> exists i :: 0 <= i < |songs| && songs[i].genre == g
  {
    if songs == [] then []
    else
      var init := songs[..|songs| - 1];
      var r := InsertGenre(GenreList(init), songs[|songs| - 1].genre);
      assert forall i :: 0 <= i < |init| ==> init[i] == songs[i];
      r
  }

  /**
   * A strictly sorted list is determined by its elements: the genre list is
   * the only sorted, repeat-free listing of the catalog's genres.
   */
  lemma {:induction false} SortedSetUnique(xs: seq<string>, ys: seq<string>)
    requires StrictlySorted(xs) && StrictlySorted(ys)
    requires forall x :: x in xs <==> x in ys
    ensures xs == ys
  {
    if xs != [] && ys != [] {
      assert xs[0] == ys[0] by {
        if xs[0] != ys[0] {
          assert ys[0] in xs;
          assert xs[0] in ys;
          var i :| 0 <= i < |xs| && xs[i] == ys[0];
          var j :| 0 <= j < |ys| && ys[j] == xs[0];
          StrLessTransitive(xs[0], ys[0], xs[0]);
          StrLessIrreflexive(xs[0]);
        }
      }
      forall x ensures x in xs[1..] <==> x in ys[1..] {
        Tail(xs, x);
        Tail(ys, x);
      }
      SortedSetUnique(xs[1..], ys[1..]);
      assert xs == [xs[0]] + xs[1..] && ys == [ys[0]] + ys[1..];
    } else {
      HeadIn(xs);
      HeadIn(ys);
    }
  }

  lemma HeadIn(xs: seq<string>)
    ensures xs != [] ==> xs[0] in xs
  {
  }

  /** In a strictly sorted list, the tail holds every element but the head. */
  lemma Tail(xs: seq<string>, x: string)
    requires StrictlySorted(xs) && xs != []
    ensures x in xs[1..] <==> x in xs && x != xs[0]
  {
    if x in xs[1..] {
      var j :| 0 <= j < |xs[1..]| && xs[1..][j] == x;
      assert xs[j + 1] == x;
      StrLessIrreflexive(xs[0]);
    }
    if x in xs && x != xs[0] {
      var j :| 0 <= j < |xs| && xs[j] == x;
      assert xs[1..][j - 1] == x;
    }
  }

  /**
   * The genre the user typed, matched case-insensitively against the genre
   * list: the input is stripped; an empty input selects nothing; otherwise
   * the first list entry equal to it up to case is chosen, and none when no
   * entry is.
   */
  method MatchGenre(genres: seq<string>, typed: string) returns (r: Option<string>)
    ensures r.None? <==> Trim(typed) == [] || forall i :: 0 <= i < |genres| ==> Lower(genres[i]) != Lower(Trim(typed))
    ensures r.Some? ==> exists i :: (0 <= i < |genres| && genres[i] == r.value
      && Lower(genres[i]) == Lower(Trim(typed))
      && forall j :: 0 <= j < i ==> Lower(genres[j]) != Lower(Trim(typed)))
  {
    var g := Trim(typed);
    if g == [] {
      return None;
    }
    for i := 0 to |genres|
      invariant forall j :: 0 <= j < i ==> Lower(genres[j]) != Lower(g)
    {
      if Lower(genres[i]) == Lower(g) {
        return Some(genres[i]);
      }
    }
    return None;
  }

  /** The songs of exactly the given genre, in catalog order. */
  function GenreFilter(songs: seq<Song>, genre: string): (r: seq<Song>)
    ensures |r| <= |songs|
    ensures forall s :: s in r <==> s in songs && s.genre == genre
  {
    if songs == [] then []
    else
      var init := songs[..|songs| - 1];
      var last := songs[|songs| - 1];
      assert songs == init + [last];
      GenreFilter(init, genre) + (if last.genre == genre then [last] else [])
  }

  /** The filter keeps catalog order: filtering two catalogs one after the other filters each in turn. */
  lemma {:induction false} GenreFilterAppend(a: seq<Song>, b: seq<Song>, genre: string)
    ensures GenreFilter(a + b, genre) == GenreFilter(a, genre) + GenreFilter(b, genre)
  {
    if b != [] {
      var b' := b[..|b| - 1];
      GenreFilterAppend(a, b', genre);
      assert (a + b)[..|a + b| - 1] == a + b';
      assert (a + b)[|a + b| - 1] == b[|b| - 1];
    } else {
      assert a + b == a;
    }
  }

  /**
   * The pool a genre choice selects: the songs of that exact genre when the
   * choice is a non-empty genre with songs, otherwise the whole catalog.
   */
  function SelectPool(songs: seq<Song>, choice: Option<string>): (pool: seq<Song>)
    ensures forall s :: s in pool ==> s in songs
    ensures songs != [] ==> pool != []
    ensures choice.Some? && choice.value != [] && (exists s :: s in songs && s.genre == choice.value)
      ==> pool == GenreFilter(songs, choice.value) && forall s :: s in pool ==> s.genre == choice.value
    ensures (choice.None? || choice.value == [] || forall s :: s in songs ==> s.genre != choice.value)
      ==> pool == songs
  {
    if choice.Some? && choice.value != [] then
      var filtered := GenreFilter(songs, choice.value);
      if filtered == [] then songs
      else
        assert filtered[0] in filtered;
        filtered
    else songs
  }

  /** A genre taken from the genre list always selects a non-empty pool of that genre. */
  lemma ListedGenreSelects(songs: seq<Song>, g: string)
    requires g in GenreList(songs) && g != []
    ensures SelectPool(songs, Some(g)) == GenreFilter(songs, g)
    ensures SelectPool(songs, Some(g)) != []
    ensures forall s :: s in SelectPool(songs, Some(g)) ==> s.genre == g
  {
    var i :| 0 <= i < |songs| && songs[i].genre == g;
    assert songs[i] in GenreFilter(songs, g);
  }
}
