/**
 * The loader's loop over the lines, as a fold of the lines' classifications
 * into the loop variables (stored songs, seen keys, loaded, skipped), and its
 * reference description: the stored songs are the first valid row of each
 * key, in file order, and skipped counts the bad lines.
 */
module Loading {
  import opened Wrappers
  import opened Text
  import opened Songs
  import opened Catalog

  /** The loop's variables: the songs this load appended, unique, loaded and skipped. */
  datatype LoadState = LoadState(songs: seq<Song>, seen: set<Key>, loaded: nat, skipped: nat)

  const Initial := LoadState([], {}, 0, 0)

  /** One iteration of the loop, once the line is classified. */
  function Step(st: LoadState, k: LineKind): LoadState {
    match k
    case Row(s) =>
      if s.Key() in st.seen then st
      else LoadState(st.songs + [s], st.seen + {s.Key()}, st.loaded + 1, st.skipped)
    case _ =>
      if IsSkipped(k) then st.(skipped := st.skipped + 1) else st
  }

  /** The loop over a sequence of classified lines, in order. */
  function Fold(kinds: seq<LineKind>): LoadState {
    if kinds == [] then Initial
    else Step(Fold(kinds[..|kinds| - 1]), kinds[|kinds| - 1])
  }

  /** f applied to every element, in order. */
  function Map<A, B>(f: A -> B, xs: seq<A>): (ys: seq<B>)
    ensures |ys| == |xs|
  {
    if xs == [] then [] else Map(f, xs[..|xs| - 1]) + [f(xs[|xs| - 1])]
  }

  lemma {:induction false} MapAt<A, B>(f: A -> B, xs: seq<A>, i: nat)
    requires i < |xs|
    ensures Map(f, xs)[i] == f(xs[i])
  {
    if i < |xs| - 1 {
      MapAt(f, xs[..|xs| - 1], i);
    }
  }

  lemma {:induction false} MapAppend<A, B>(f: A -> B, a: seq<A>, b: seq<A>)
    ensures Map(f, a + b) == Map(f, a) + Map(f, b)
  {
    if b == [] {
      assert a + b == a;
    } else {
      var b', x := b[..|b| - 1], b[|b| - 1];
      var ab := a + b';
      MapAppend(f, a, b');
      assert a + b == ab + [x];
      assert (ab + [x])[..|ab|] == ab;
      assert Map(f, a + b) == Map(f, ab) + [f(x)];
      assert Map(f, b) == Map(f, b') + [f(x)];
      assert Map(f, a) + Map(f, b') + [f(x)] == Map(f, a) + (Map(f, b') + [f(x)]);
    }
  }

  /** Each line's classification, in line order. */
  function Kinds(lines: seq<string>): (ks: seq<LineKind>)
    ensures |ks| == |lines|
  {
    Map(Classify, lines)
  }

  /** The classification of line i is the i-th kind. */
  lemma KindsAt(lines: seq<string>, i: nat)
    requires i < |lines|
    ensures Kinds(lines)[i] == Classify(lines[i])
  {
    MapAt(Classify, lines, i);
  }

  /** One more line is one more step of the fold. */
  lemma FoldStep(kinds: seq<LineKind>, i: nat)
    requires i < |kinds|
    ensures Fold(kinds[..i + 1]) == Step(Fold(kinds[..i]), kinds[i])
  {
    assert kinds[..i + 1][..i] == kinds[..i];
  }

  /** The whole loop over the raw lines. */
  function Run(lines: seq<string>): LoadState {
    Fold(Kinds(lines))
  }

  // ------------------------------------------------------- reference views

  /** The valid records, duplicates included, in line order. */
  function Rows(kinds: seq<LineKind>): seq<Song> {
    if kinds == [] then []
    else Rows(kinds[..|kinds| - 1]) + (if kinds[|kinds| - 1].Row? then [kinds[|kinds| - 1].song] else [])
  }

  /** The number of lines counted as bad. */
  function SkipCount(kinds: seq<LineKind>): nat {
    if kinds == [] then 0
    else SkipCount(kinds[..|kinds| - 1]) + (if IsSkipped(kinds[|kinds| - 1]) then 1 else 0)
  }

  /** The keys of some songs. */
  function KeysOf(songs: seq<Song>): set<Key> {
    if songs == [] then {}
    else KeysOf(songs[..|songs| - 1]) + {songs[|songs| - 1].Key()}
  }

  predicate DistinctKeys(songs: seq<Song>) {
    forall i, j :: 0 <= i < j < |songs| ==> songs[i].Key() != songs[j].Key()
  }

  /** rows[i] is the first row with its key. */
  predicate IsFirst(rows: seq<Song>, i: nat)
    requires i < |rows|
  {
    forall j :: 0 <= j < i ==> rows[j].Key() != rows[i].Key()
  }

  /** The rows that are the first of their key, in their original order. */
  function FirstOccurrences(rows: seq<Song>): seq<Song> {
    if rows == [] then []
    else FirstOccurrences(rows[..|rows| - 1]) + (if IsFirst(rows, |rows| - 1) then [rows[|rows| - 1]] else [])
  }

  // ------------------------------------------------------------- lemmas

  /** A key is among the keys of some songs exactly when one of them has it. */
  lemma {:induction false} KeysOfHas(songs: seq<Song>, k: Key)
    ensures k in KeysOf(songs) <==> exists i :: 0 <= i < |songs| && songs[i].Key() == k
  {
    if songs != [] {
      var init := songs[..|songs| - 1];
      KeysOfHas(init, k);
      if k in KeysOf(init) {
        var i :| 0 <= i < |init| && init[i].Key() == k;
        assert songs[i] == init[i];
      }
      forall i | 0 <= i < |init| ensures songs[i] == init[i] { }
    }
  }

  /** The last row is the first of its key exactly when no earlier row has that key. */
  lemma LastIsFirst(rows: seq<Song>)
    requires rows != []
    ensures IsFirst(rows, |rows| - 1) <==> rows[|rows| - 1].Key() !in KeysOf(rows[..|rows| - 1])
  {
    var init := rows[..|rows| - 1];
    KeysOfHas(init, rows[|rows| - 1].Key());
    forall j | 0 <= j < |init| ensures init[j] == rows[j] { }
  }

  /**
   * The first occurrences keep every key, drop every repeated key, and so
   * hold exactly one song for each key of the rows.
   */
  lemma {:induction false} FirstOccurrencesKeys(rows: seq<Song>)
    ensures KeysOf(FirstOccurrences(rows)) == KeysOf(rows)
    ensures DistinctKeys(FirstOccurrences(rows))
  {
    if rows != [] {
      var init := rows[..|rows| - 1];
      var last := rows[|rows| - 1];
      var fo := FirstOccurrences(init);
      FirstOccurrencesKeys(init);
      LastIsFirst(rows);
      if IsFirst(rows, |rows| - 1) {
        var r := fo + [last];
        assert r[..|r| - 1] == fo;
        forall i, j | 0 <= i < j < |r| ensures r[i].Key() != r[j].Key() {
          if j == |r| - 1 {
            KeysOfHas(fo, last.Key());
          }
        }
      } else {
        assert fo + [] == fo;
      }
    }
  }

  /** Every first occurrence is one of the rows, and the one that is kept for its key is the earliest. */
  lemma FirstOccurrencesFromRows(rows: seq<Song>)
    ensures forall x :: x in FirstOccurrences(rows) ==> exists i :: 0 <= i < |rows| && rows[i] == x && IsFirst(rows, i)
    ensures forall i :: 0 <= i < |rows| && IsFirst(rows, i) ==> rows[i] in FirstOccurrences(rows)
  {
    FirstOccurrencesSound(rows);
    FirstOccurrencesComplete(rows);
  }

  /** Every kept row is the first row of its key. */
  lemma {:induction false} FirstOccurrencesSound(rows: seq<Song>)
    ensures forall x :: x in FirstOccurrences(rows) ==> exists i :: 0 <= i < |rows| && rows[i] == x && IsFirst(rows, i)
  {
    if rows != [] {
      var init := rows[..|rows| - 1];
      FirstOccurrencesSound(init);
      FirstInPrefix(rows);
      var last := if IsFirst(rows, |rows| - 1) then [rows[|rows| - 1]] else [];
      assert FirstOccurrences(rows) == FirstOccurrences(init) + last;
      forall x | x in FirstOccurrences(rows) ensures exists i :: 0 <= i < |rows| && rows[i] == x && IsFirst(rows, i) {
        if x in FirstOccurrences(init) {
          var i :| 0 <= i < |init| && init[i] == x && IsFirst(init, i);
          assert rows[i] == x && IsFirst(rows, i);
        } else {
          assert x in last;
          assert rows[|rows| - 1] == x && IsFirst(rows, |rows| - 1);
        }
      }
    }
  }

  /** Every row that is the first of its key is kept. */
  lemma {:induction false} FirstOccurrencesComplete(rows: seq<Song>)
    ensures forall i :: 0 <= i < |rows| && IsFirst(rows, i) ==> rows[i] in FirstOccurrences(rows)
  {
    if rows != [] {
      var init := rows[..|rows| - 1];
      var fo := FirstOccurrences(init);
      FirstOccurrencesComplete(init);
      var last := if IsFirst(rows, |rows| - 1) then [rows[|rows| - 1]] else [];
      assert FirstOccurrences(rows) == fo + last;
      forall i | 0 <= i < |rows| && IsFirst(rows, i) ensures rows[i] in fo + last {
        if i < |init| {
          FirstInPrefixAt(rows, i);
          assert init[i] in fo;
        } else {
          assert rows[i] in last;
        }
      }
    }
  }

  /** The i-th row is the first of its key among all rows exactly when it is among all but the last. */
  lemma FirstInPrefixAt(rows: seq<Song>, i: nat)
    requires i < |rows| - 1
    ensures rows[..|rows| - 1][i] == rows[i]
    ensures IsFirst(rows[..|rows| - 1], i) <==> IsFirst(rows, i)
  {
    assert forall j :: 0 <= j < i ==> rows[..|rows| - 1][j] == rows[j];
  }

  /** Being the first of its key does not depend on the rows that come later. */
  lemma FirstInPrefix(rows: seq<Song>)
    requires rows != []
    ensures forall i :: 0 <= i < |rows| - 1 ==> rows[..|rows| - 1][i] == rows[i]
    ensures forall i :: 0 <= i < |rows| - 1 ==> (IsFirst(rows[..|rows| - 1], i) <==> IsFirst(rows, i))
  {
  }

  /**
   * The fold's state after any classified lines, stated without the loop:
   * the stored songs are the first occurrences of the valid rows, the seen
   * set holds every row's key, loaded counts the stored songs and skipped
   * the bad lines.
   */
  lemma {:induction false} FoldSpec(kinds: seq<LineKind>)
    ensures Fold(kinds).songs == FirstOccurrences(Rows(kinds))
    ensures Fold(kinds).seen == KeysOf(Rows(kinds))
    ensures Fold(kinds).loaded == |Fold(kinds).songs|
    ensures Fold(kinds).skipped == SkipCount(kinds)
  {
    if kinds != [] {
      var init := kinds[..|kinds| - 1];
      FoldSpec(init);
      FoldSpecStep(init, kinds[|kinds| - 1]);
      assert kinds == init + [kinds[|kinds| - 1]];
    }
  }

  /** One more line keeps the fold equal to its reference description. */
  lemma FoldSpecStep(init: seq<LineKind>, k: LineKind)
    requires Fold(init).songs == FirstOccurrences(Rows(init))
    requires Fold(init).seen == KeysOf(Rows(init))
    requires Fold(init).loaded == |Fold(init).songs|
    requires Fold(init).skipped == SkipCount(init)
    ensures Fold(init + [k]).songs == FirstOccurrences(Rows(init + [k]))
    ensures Fold(init + [k]).seen == KeysOf(Rows(init + [k]))
    ensures Fold(init + [k]).loaded == |Fold(init + [k]).songs|
    ensures Fold(init + [k]).skipped == SkipCount(init + [k])
  {
    var kinds := init + [k];
    assert kinds[..|kinds| - 1] == init;
    assert kinds[|kinds| - 1] == k;
    if k.Row? {
      var rows := Rows(kinds);
      assert rows == Rows(init) + [k.song];
      assert rows[..|rows| - 1] == Rows(init);
      LastIsFirst(rows);
    } else {
      assert Rows(kinds) == Rows(init) + [];
      assert Rows(init) + [] == Rows(init);
    }
  }

  /** Rows and bad-line counts add up over concatenation. */
  lemma {:induction false} ViewsAppend(x: seq<LineKind>, y: seq<LineKind>)
    ensures Rows(x + y) == Rows(x) + Rows(y)
    ensures SkipCount(x + y) == SkipCount(x) + SkipCount(y)
  {
    if y != [] {
      var y' := y[..|y| - 1];
      ViewsAppend(x, y');
      assert (x + y)[..|x + y| - 1] == x + y';
      assert (x + y)[|x + y| - 1] == y[|y| - 1];
    } else {
      assert x + y == x;
    }
  }

  /** Classifying lines commutes with concatenating them. */
  lemma KindsAppend(a: seq<string>, b: seq<string>)
    ensures Kinds(a + b) == Kinds(a) + Kinds(b)
  {
    MapAppend(Classify, a, b);
  }

  /** A line that is the same as no line, for both views. */
  lemma NeutralKind(k: LineKind)
    requires IsIgnored(k)
    ensures Rows([k]) == [] && SkipCount([k]) == 0
  {
    assert [k][..0] == [];
  }

  /** Classifying a file with one more line in the middle. */
  lemma KindsSplice(a: seq<string>, raw: string, b: seq<string>)
    ensures Kinds(a + [raw] + b) == Kinds(a) + [Classify(raw)] + Kinds(b)
  {
    KindsAppend(a + [raw], b);
    KindsAppend(a, [raw]);
    KindsAt([raw], 0);
  }

  /** The fold depends on the kinds only through their rows and their bad-line count. */
  lemma SameViews(x: seq<LineKind>, y: seq<LineKind>)
    requires Rows(x) == Rows(y) && SkipCount(x) == SkipCount(y)
    ensures Fold(x) == Fold(y)
  {
    FoldSpec(x);
    FoldSpec(y);
  }

  /** An ignored kind anywhere in the sequence folds to the same state as no line. */
  lemma IgnoredKindAnywhere(x: seq<LineKind>, k: LineKind, y: seq<LineKind>)
    requires IsIgnored(k)
    ensures Fold(x + [k] + y) == Fold(x + y)
  {
    ViewsAppend(x + [k], y);
    ViewsAppend(x, [k]);
    ViewsAppend(x, y);
    NeutralKind(k);
    assert Rows(x) + [] == Rows(x);
    SameViews(x + [k] + y, x + y);
  }

  /** A bad kind anywhere in the sequence only adds one to the skipped count. */
  lemma SkippedKindAnywhere(x: seq<LineKind>, k: LineKind, y: seq<LineKind>)
    requires IsSkipped(k)
    ensures Fold(x + [k] + y) == Fold(x + y).(skipped := Fold(x + y).skipped + 1)
  {
    ViewsAppend(x + [k], y);
    ViewsAppend(x, [k]);
    ViewsAppend(x, y);
    assert [k][..0] == [];
    assert Rows(x) + [] == Rows(x);
    FoldSpec(x + [k] + y);
    FoldSpec(x + y);
  }

  /**
   * A blank line, a header row or a bpm/energy header fragment can be
   * inserted anywhere in the file without changing anything the loop
   * computes.
   */
  lemma IgnoredLineAnywhere(a: seq<string>, raw: string, b: seq<string>)
    requires IsIgnored(Classify(raw))
    ensures Run(a + [raw] + b) == Run(a + b)
  {
    KindsSplice(a, raw, b);
    KindsAppend(a, b);
    IgnoredKindAnywhere(Kinds(a), Classify(raw), Kinds(b));
  }

  /** Every header row, wherever it appears, is ignored. */
  lemma HeaderAnywhere(a: seq<string>, raw: string, b: seq<string>)
    requires RemoveSpaces(Lower(Trim(raw))) == HeaderSignature
    ensures Run(a + [raw] + b) == Run(a + b)
  {
    IgnoredLineAnywhere(a, raw, b);
  }

  /**
   * A bad line (too few fields, no artist, a bpm that is missing or zero)
   * anywhere in the file adds one to skipped and changes nothing else.
   */
  lemma BadLineSkipped(a: seq<string>, raw: string, b: seq<string>)
    requires IsSkipped(Classify(raw))
    ensures Run(a + [raw] + b) == Run(a + b).(skipped := Run(a + b).skipped + 1)
  {
    KindsSplice(a, raw, b);
    KindsAppend(a, b);
    SkippedKindAnywhere(Kinds(a), Classify(raw), Kinds(b));
  }

  /** A valid row whose key an earlier row already has changes nothing. */
  lemma DuplicateDropped(a: seq<string>, raw: string)
    requires Classify(raw).Row?
    requires Classify(raw).song.Key() in Run(a).seen
    ensures Run(a + [raw]) == Run(a)
  {
    assert (a + [raw])[..|a|] == a;
    assert Kinds(a + [raw]) == Kinds(a) + [Classify(raw)];
  }

  /** What the loop leaves behind, in terms of the lines alone. */
  lemma RunSpec(lines: seq<string>)
    ensures Run(lines).songs == FirstOccurrences(Rows(Kinds(lines)))
    ensures Run(lines).seen == KeysOf(Run(lines).songs)
    ensures Run(lines).loaded == |Run(lines).songs|
    ensures Run(lines).skipped == SkipCount(Kinds(lines))
    ensures DistinctKeys(Run(lines).songs)
    ensures forall i :: 0 <= i < |Run(lines).songs| ==> ValidSong(Run(lines).songs[i])
  {
    var ks := Kinds(lines);
    FoldSpec(ks);
    FirstOccurrencesKeys(Rows(ks));
    RowsValid(lines);
    FirstOccurrencesFromRows(Rows(ks));
    var songs := Run(lines).songs;
    forall i | 0 <= i < |songs| ensures ValidSong(songs[i]) {
      assert songs[i] in songs;
    }
  }

  /** Every valid row of the lines is a valid song. */
  lemma RowsValid(lines: seq<string>)
    ensures forall s :: s in Rows(Kinds(lines)) ==> ValidSong(s)
  {
    forall i | 0 <= i < |lines| && Kinds(lines)[i].Row? ensures ValidSong(Kinds(lines)[i].song) {
      KindsAt(lines, i);
      RowValid(lines[i]);
    }
    RowsOfValid(Kinds(lines));
  }

  lemma {:induction false} RowsOfValid(kinds: seq<LineKind>)
    requires forall i :: 0 <= i < |kinds| && kinds[i].Row? ==> ValidSong(kinds[i].song)
    ensures forall s :: s in Rows(kinds) ==> ValidSong(s)
  {
    if kinds != [] {
      RowsOfValid(kinds[..|kinds| - 1]);
    }
  }
}
