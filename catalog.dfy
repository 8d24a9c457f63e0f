/**
 * The tolerant catalog loader's per-line logic and its specification: how
 * one raw line is classified, how the loop over the lines folds the lines
 * into (songs, seen keys, loaded, skipped), and what the result is in terms
 * of the lines alone.
 */
module Catalog {
  import opened Wrappers
  import opened Text
  import opened Songs

  /** A header row, after lower-casing and removing spaces. */
  const HeaderSignature := "title,artist,genre,bpm,energy"

  /** What the loop does with one raw line. */
  datatype LineKind =
    | Blank            // empty after stripping: ignored
    | Header           // the header row, wherever it appears: ignored
    | TooFewFields     // fewer than five comma-separated fields: skipped
    | HeaderFragment   // bpm field "bpm" or energy field "energy": ignored
    | MissingArtist    // no comma left between title and artist: skipped
    | ZeroBpm          // bpm did not parse, or is zero: skipped
    | Row(song: Song)  // a valid record (it may still be a duplicate)

  /** Lines passed over without touching either counter. */
  predicate IsIgnored(k: LineKind) {
    k.Blank? || k.Header? || k.HeaderFragment?
  }

  /** Lines counted as bad. */
  predicate IsSkipped(k: LineKind) {
    k.TooFewFields? || k.MissingArtist? || k.ZeroBpm?
  }

  /** The comma-separated fields of a line, each stripped. */
  function Fields(line: string): (parts: seq<string>)
    ensures |parts| == Count(line, ',') + 1
    ensures forall i :: 0 <= i < |parts| ==> IsTrimmed(parts[i]) && Lacks(parts[i], ',')
    ensures forall i :: 0 <= i < |parts| ==> parts[i] == Trim(Split(line, ',')[i])
  {
    var pieces := Split(line, ',');
    var parts := TrimAll(pieces);
    assert forall i :: 0 <= i < |parts| ==> parts[i] == Trim(pieces[i]) && Lacks(parts[i], ',') by {
      forall i | 0 <= i < |parts| ensures parts[i] == Trim(pieces[i]) && Lacks(parts[i], ',') {
        TrimAllAt(pieces, i);
        TrimKeeps(pieces[i], ',');
      }
    }
    parts
  }

  /** Strips every piece. */
  function TrimAll(pieces: seq<string>): (parts: seq<string>)
    ensures |parts| == |pieces|
    ensures forall i :: 0 <= i < |parts| ==> IsTrimmed(parts[i])
  {
    if pieces == [] then [] else [Trim(pieces[0])] + TrimAll(pieces[1..])
  }

  /** The i-th field is the i-th piece, stripped. */
  lemma {:induction false} TrimAllAt(pieces: seq<string>, i: nat)
    requires i < |pieces|
    ensures TrimAll(pieces)[i] == Trim(pieces[i])
  {
    if i > 0 {
      TrimAllAt(pieces[1..], i - 1);
    }
  }

  /** Stripping only removes characters. */
  lemma TrimKeeps(s: string, c: char)
    requires Lacks(s, c)
    ensures Lacks(Trim(s), c)
  {
    var r := Trim(s);
    TrimCuts(s);
    var i, j :| 0 <= i <= j <= |s| && r == s[i..j] && AllSpace(s[..i]) && AllSpace(s[j..]);
    forall k | 0 <= k < |r| ensures r[k] != c {
      assert r[k] == s[i + k];
    }
  }

  /** The body of the per-line loop, as a classification of the raw line. */
  function Classify(raw: string): LineKind {
    var line := Trim(raw);
    if line == "" then Blank
    else if RemoveSpaces(Lower(line)) == HeaderSignature then Header
    else if |Fields(line)| < 5 then TooFewFields
    else ClassifyFields(Fields(line))
  }

  /** The rest of the loop body, once the line has at least five fields: parse from the right. */
  function ClassifyFields(parts: seq<string>): LineKind
    requires |parts| >= 5
  {
    var n := |parts|;
    if Lower(Trim(parts[n - 2])) == "bpm" || Lower(Trim(parts[n - 1])) == "energy" then HeaderFragment
    else
      var left := Join(parts[..n - 3], ",");
      if Lacks(left, ',') then MissingArtist
      else
        var titleArtist := SplitFirst(left, ',');
        var song := MakeSong(titleArtist.0, titleArtist.1, parts[n - 3], parts[n - 2], parts[n - 1]);
        if song.bpm == 0 then ZeroBpm else Row(song)
  }

  // ------------------------------------------------------- per-line lemmas

  /**
   * A valid row takes genre, bpm and energy from the last three stripped
   * fields, the title from the first field (the text before the first comma)
   * and the artist from all the fields in between, rejoined with commas and
   * so possibly holding commas itself.
   */
  lemma RowFields(raw: string)
    requires Classify(raw).Row?
    ensures |Fields(Trim(raw))| >= 5
    ensures Classify(raw).song == RowFromFields(Fields(Trim(raw)))
  {
    FieldsRow(Fields(Trim(raw)));
  }

  /** The song a valid row of at least five stripped, comma-free fields describes. */
  function RowFromFields(parts: seq<string>): Song
    requires |parts| >= 5
  {
    var n := |parts|;
    Song(parts[0], Join(parts[1..n - 3], ","), parts[n - 3], SafeInt(parts[n - 2], 0), EnergyLevel(parts[n - 1]))
  }

  lemma FieldsRow(parts: seq<string>)
    requires |parts| >= 5
    requires forall i :: 0 <= i < |parts| ==> IsTrimmed(parts[i]) && Lacks(parts[i], ',')
    requires ClassifyFields(parts).Row?
    ensures ClassifyFields(parts).song == RowFromFields(parts)
    ensures ParseInt(parts[|parts| - 2]) == Some(ClassifyFields(parts).song.bpm)
    ensures ClassifyFields(parts).song.bpm != 0
  {
    var s := ClassifyFields(parts).song;
    RowTitleArtist(parts);
    RowGenreBpmEnergy(parts);
    assert s.title == RowFromFields(parts).title;
    assert s.artist == RowFromFields(parts).artist;
  }

  lemma RowTitleArtist(parts: seq<string>)
    requires |parts| >= 5
    requires forall i :: 0 <= i < |parts| ==> IsTrimmed(parts[i]) && Lacks(parts[i], ',')
    requires ClassifyFields(parts).Row?
    ensures ClassifyFields(parts).song.title == parts[0]
    ensures ClassifyFields(parts).song.artist == Join(parts[1..|parts| - 3], ",")
  {
    LeftSide(parts);
  }

  /** The left side splits at its first comma into the first field and the rejoined others, all stripped already. */
  lemma LeftSide(parts: seq<string>)
    requires |parts| >= 5
    requires forall i :: 0 <= i < |parts| ==> IsTrimmed(parts[i]) && Lacks(parts[i], ',')
    ensures !Lacks(Join(parts[..|parts| - 3], ","), ',')
    ensures SplitFirst(Join(parts[..|parts| - 3], ","), ',') == (parts[0], Join(parts[1..|parts| - 3], ","))
    ensures Trim(parts[0]) == parts[0]
    ensures Trim(Join(parts[1..|parts| - 3], ",")) == Join(parts[1..|parts| - 3], ",")
  {
    var front := parts[..|parts| - 3];
    assert front[1..] == parts[1..|parts| - 3];
    SplitJoined(front);
  }

  lemma SplitJoined(front: seq<string>)
    requires |front| >= 2
    requires forall i :: 0 <= i < |front| ==> IsTrimmed(front[i]) && Lacks(front[i], ',')
    ensures !Lacks(Join(front, ","), ',')
    ensures SplitFirst(Join(front, ","), ',') == (front[0], Join(front[1..], ","))
    ensures Trim(front[0]) == front[0]
    ensures Trim(Join(front[1..], ",")) == Join(front[1..], ",")
  {
    SplitFirstJoin(front, ',');
    TrimTrimmed(front[0]);
    JoinTrimmed(front[1..], ',');
    TrimTrimmed(Join(front[1..], ","));
  }

  lemma RowGenreBpmEnergy(parts: seq<string>)
    requires |parts| >= 5
    requires IsTrimmed(parts[|parts| - 3])
    requires ClassifyFields(parts).Row?
    ensures ClassifyFields(parts).song.genre == parts[|parts| - 3]
    ensures ClassifyFields(parts).song.bpm == SafeInt(parts[|parts| - 2], 0) != 0
    ensures ParseInt(parts[|parts| - 2]) == Some(ClassifyFields(parts).song.bpm)
    ensures ClassifyFields(parts).song.energy == EnergyLevel(parts[|parts| - 1])
  {
    TrimTrimmed(parts[|parts| - 3]);
  }

  /** The branch for a left side with no comma is dead: five fields leave at least two on the left. */
  lemma MissingArtistUnreachable(raw: string)
    ensures Classify(raw) != MissingArtist
  {
    var line := Trim(raw);
    if line != "" && |Fields(line)| >= 5 {
      FieldsNeverMissArtist(Fields(line));
    }
  }

  lemma FieldsNeverMissArtist(parts: seq<string>)
    requires |parts| >= 5
    ensures ClassifyFields(parts) != MissingArtist
  {
    JoinHasSeparator(parts[..|parts| - 3], ',');
  }

  /** A stored song is never rejected for its bpm and has its energy on the 1..5 scale. */
  predicate ValidSong(s: Song) {
    s.bpm != 0 && 1 <= s.energy <= 5
  }

  /** Every valid row has a nonzero bpm and an energy in 1..5. */
  lemma RowValid(raw: string)
    requires Classify(raw).Row?
    ensures ValidSong(Classify(raw).song)
  {
    var line := Trim(raw);
    assert Classify(raw) == ClassifyFields(Fields(line));
    FieldsRowValid(Fields(line));
  }

  lemma FieldsRowValid(parts: seq<string>)
    ensures |parts| >= 5 && ClassifyFields(parts).Row? ==> ValidSong(ClassifyFields(parts).song)
  {
  }

  /** A non-blank, non-header line is short exactly when it has fewer than four commas. */
  lemma TooFewFieldsIff(raw: string)
    ensures Classify(raw) == TooFewFields <==>
      Trim(raw) != "" && RemoveSpaces(Lower(Trim(raw))) != HeaderSignature && Count(Trim(raw), ',') < 4
  {
    var line := Trim(raw);
    assert |Fields(line)| == Count(line, ',') + 1;
    assert |Fields(line)| >= 5 ==> ClassifyFields(Fields(line)) != TooFewFields by {
      ClassifiedNotShort(Fields(line));
    }
  }

  lemma ClassifiedNotShort(parts: seq<string>)
    ensures |parts| >= 5 ==> ClassifyFields(parts) != TooFewFields
  {
  }

  /**
   * Past the header-fragment test, a row is kept exactly when its bpm field
   * reads as a nonzero integer, negative numbers included, and is otherwise
   * skipped for its bpm.
   */
  lemma BpmRejection(parts: seq<string>)
    requires |parts| >= 5
    requires Lower(Trim(parts[|parts| - 2])) != "bpm" && Lower(Trim(parts[|parts| - 1])) != "energy"
    ensures ClassifyFields(parts).Row? <==> SafeInt(parts[|parts| - 2], 0) != 0
    ensures ClassifyFields(parts) == ZeroBpm <==> SafeInt(parts[|parts| - 2], 0) == 0
  {
    FieldsNeverMissArtist(parts);
  }

  /** A negative bpm is not rejected: only zero and unreadable values are. */
  lemma NegativeBpmKept()
    ensures ClassifyFields(["Intro", "DJ", "House", "-5", "3"]).Row?
    ensures ClassifyFields(["Intro", "DJ", "House", "-5", "3"]).song.bpm == -5
  {
    var parts := ["Intro", "DJ", "House", "-5", "3"];
    IntToStringParses(-5);
    assert SafeInt("-5", 0) == -5;
    assert Trim("-5") == "-5" by { TrimTrimmed("-5"); }
    assert Trim("3") == "3" by { TrimTrimmed("3"); }
    BpmRejection(parts);
    FieldsNeverMissArtist(parts);
  }

  /**
   * The fields of a row whose title holds a comma, "My Neck, My Back,Unknown
   * Artist,Hip Hop,95,4", once split and stripped: the first field is the
   * title and the fields between it and the genre are rejoined into the
   * artist "My Back,Unknown Artist".
   */
  lemma EmbeddedCommaExample()
    ensures RowFromFields(["My Neck", "My Back", "Unknown Artist", "Hip Hop", "95", "4"])
         == Song("My Neck", "My Back,Unknown Artist", "Hip Hop", 95, 4)
  {
    var parts := ["My Neck", "My Back", "Unknown Artist", "Hip Hop", "95", "4"];
    IntToStringParses(95);
    IntToStringParses(4);
    assert IntToString(95) == "95";
    assert IntToString(4) == "4";
    assert SafeInt("95", 0) == 95;
    assert EnergyLevel("4") == 4;
    assert parts[1..3] == ["My Back", "Unknown Artist"];
    assert Join(["My Back", "Unknown Artist"], ",") == "My Back,Unknown Artist";
  }

  /**
   * The catalog line "My Neck, My Back,Unknown Artist,Hip Hop,95,4", whose
   * title holds a comma, written out as its comma-separated pieces.
   */
  const EmbeddedCommaLine: string := "My Neck" + "," + (" My Back" + "," + ("Unknown Artist" + "," + ("Hip Hop" + "," + ("95" + "," + "4"))))

  /**
   * The whole line "My Neck, My Back,Unknown Artist,Hip Hop,95,4" is kept as
   * a row, and the comma in its title goes to the artist: title "My Neck",
   * artist "My Back,Unknown Artist".
   */
  lemma EmbeddedCommaRow()
    ensures Classify(EmbeddedCommaLine) == Row(Song("My Neck", "My Back,Unknown Artist", "Hip Hop", 95, 4))
  {
    EmbeddedCommaTrimmed();
    EmbeddedCommaFields();
    EmbeddedCommaNotHeader();
    ClassifyOf(EmbeddedCommaLine, ["My Neck", "My Back", "Unknown Artist", "Hip Hop", "95", "4"]);
    EmbeddedCommaFieldsRow();
  }

  /** The line's fields are kept as the expected song. */
  lemma EmbeddedCommaFieldsRow()
    ensures ClassifyFields(["My Neck", "My Back", "Unknown Artist", "Hip Hop", "95", "4"])
         == Row(Song("My Neck", "My Back,Unknown Artist", "Hip Hop", 95, 4))
  {
    var parts := ["My Neck", "My Back", "Unknown Artist", "Hip Hop", "95", "4"];
    EmbeddedCommaPartsShape();
    assert Lower(Trim("95")) != "bpm" && Lower(Trim("4")) != "energy" by {
      assert |Lower(Trim("95"))| == 2 && |Lower(Trim("4"))| == 1;
    }
    assert SafeInt("95", 0) == 95 by {
      IntToStringParses(95);
      assert IntToString(95) == "95";
    }
    RowOf(parts);
    EmbeddedCommaExample();
  }

  lemma EmbeddedCommaPartsShape()
    ensures forall i :: 0 <= i < 6 ==>
      IsTrimmed(["My Neck", "My Back", "Unknown Artist", "Hip Hop", "95", "4"][i])
      && Lacks(["My Neck", "My Back", "Unknown Artist", "Hip Hop", "95", "4"][i], ',')
  {
  }

  /**
   * Fields that pass the header-fragment test and carry a nonzero bpm are
   * kept as the song read from the right.
   */
  lemma RowOf(parts: seq<string>)
    requires |parts| >= 5
    requires forall i :: 0 <= i < |parts| ==> IsTrimmed(parts[i]) && Lacks(parts[i], ',')
    requires Lower(Trim(parts[|parts| - 2])) != "bpm" && Lower(Trim(parts[|parts| - 1])) != "energy"
    requires SafeInt(parts[|parts| - 2], 0) != 0
    ensures ClassifyFields(parts) == Row(RowFromFields(parts))
  {
    BpmRejection(parts);
    FieldsRow(parts);
  }

  /** A stripped, non-blank, non-header line with at least five fields is classified by its fields. */
  lemma ClassifyOf(line: string, parts: seq<string>)
    requires Trim(line) == line && line != ""
    requires RemoveSpaces(Lower(line)) != HeaderSignature
    requires Fields(line) == parts && |parts| >= 5
    ensures Classify(line) == ClassifyFields(parts)
  {
  }

  // The steps of EmbeddedCommaRow, one small fact about the line or its pieces each.

  lemma EmbeddedCommaTrimmed()
    ensures Trim(EmbeddedCommaLine) == EmbeddedCommaLine
  {
    assert IsTrimmed(EmbeddedCommaLine);
    TrimTrimmed(EmbeddedCommaLine);
  }

  lemma EmbeddedCommaFields()
    ensures Fields(EmbeddedCommaLine) == ["My Neck", "My Back", "Unknown Artist", "Hip Hop", "95", "4"]
  {
    var pieces := ["My Neck", " My Back", "Unknown Artist", "Hip Hop", "95", "4"];
    assert Join(pieces, ",") == EmbeddedCommaLine;
    EmbeddedCommaPiecesLack();
    EmbeddedCommaPiecesTrim();
    FieldsOfJoin(pieces);
  }

  lemma EmbeddedCommaPiecesLack()
    ensures forall i :: 0 <= i < 6 ==> Lacks(["My Neck", " My Back", "Unknown Artist", "Hip Hop", "95", "4"][i], ',')
  {
  }

  lemma EmbeddedCommaPiecesTrim()
    ensures TrimAll(["My Neck", " My Back", "Unknown Artist", "Hip Hop", "95", "4"]) == ["My Neck", "My Back", "Unknown Artist", "Hip Hop", "95", "4"]
  {
    EmbeddedCommaTrimFront();
    EmbeddedCommaTrimRest();
  }

  lemma EmbeddedCommaTrimFront()
    ensures Trim("My Neck") == "My Neck" && Trim(" My Back") == "My Back"
  {
    TrimTrimmed("My Neck");
    assert Trim(" My Back") == "My Back";
  }

  lemma EmbeddedCommaTrimRest()
    ensures TrimAll(["Unknown Artist", "Hip Hop", "95", "4"]) == ["Unknown Artist", "Hip Hop", "95", "4"]
  {
    TrimAllFixed(["Unknown Artist", "Hip Hop", "95", "4"]);
  }

  /** Strips nothing from pieces that are already stripped. */
  lemma {:induction false} TrimAllFixed(pieces: seq<string>)
    requires forall i :: 0 <= i < |pieces| ==> IsTrimmed(pieces[i])
    ensures TrimAll(pieces) == pieces
  {
    if pieces != [] {
      TrimTrimmed(pieces[0]);
      TrimAllFixed(pieces[1..]);
    }
  }

  /** The fields of a comma join of comma-free pieces are the pieces, stripped. */
  lemma FieldsOfJoin(pieces: seq<string>)
    requires |pieces| >= 1
    requires forall i :: 0 <= i < |pieces| ==> Lacks(pieces[i], ',')
    ensures Fields(Join(pieces, ",")) == TrimAll(pieces)
  {
    SplitJoin(pieces, ',');
  }

  lemma EmbeddedCommaNotHeader()
    ensures RemoveSpaces(Lower(EmbeddedCommaLine)) != HeaderSignature
  {
    assert EmbeddedCommaLine[0] == 'M';
    NotHeaderByFirst(EmbeddedCommaLine);
  }

  /** A line whose first letter does not lower to 't' (nor to a space) is no header. */
  lemma NotHeaderByFirst(s: string)
    requires s != [] && LowerChar(s[0]) != ' ' && LowerChar(s[0]) != 't'
    ensures RemoveSpaces(Lower(s)) != HeaderSignature
  {
    LowerAt(s, 0);
    assert RemoveSpaces(Lower(s))[0] == LowerChar(s[0]);
  }
}
