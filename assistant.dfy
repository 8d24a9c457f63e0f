/**
 * The assistant object: its song list, the loader that fills it from the
 * catalog's lines, and the recommender that ranks a pool against the song
 * now playing.
 */
module Assistant {
  import opened Wrappers
  import opened Text
  import opened Songs
  import opened Catalog
  import opened Loading
  import opened Ranking

  /** Why a load gives up: no valid song at all (where the program exits). */
  datatype LoadError = CatalogEmpty

  /** The counts the loader reports. */
  datatype Summary = Summary(loaded: nat, skipped: nat)

  class DJAssistant {
    var songs: seq<Song>

    constructor ()
      ensures songs == []
    {
      songs := [];
    }

    /**
     * load_songs over the file's lines: appends the first valid row of each
     * new key, counts the bad lines, and fails when the song list is still
     * empty afterwards.
     */
    method LoadSongs(lines: seq<string>) returns (r: Result<Summary, LoadError>)
      modifies this
      ensures songs == old(songs) + Run(lines).songs
      ensures songs == [] ==> r == Failure(CatalogEmpty)
      ensures songs != [] ==> r == Success(Summary(Run(lines).loaded, Run(lines).skipped))
    {
      ghost var kinds := Kinds(lines);
      ghost var added: seq<Song> := [];
      var unique: set<Key> := {};
      var loaded: nat := 0;
      var skipped: nat := 0;
      for i := 0 to |lines|
        invariant Fold(kinds[..i]) == LoadState(added, unique, loaded, skipped)
        invariant songs == old(songs) + added
      {
        var kind := ReadLine(lines, i);
        FoldStep(kinds, i);
        // ReadLine stops at the first test a line fails; a bad line is counted, a valid row is deduplicated
        if IsSkipped(kind) {
          skipped := skipped + 1;
        } else if kind.Row? {
          var k := kind.song.Key();
          if k in unique {
            continue;
          }
          unique := unique + {k};
          songs := songs + [kind.song];
          added := added + [kind.song];
          loaded := loaded + 1;
        }
      }
      assert kinds[..|lines|] == kinds;
      if songs == [] {
        return Failure(CatalogEmpty);
      }
      return Success(Summary(loaded, skipped));
    }

    /**
     * recommend: scores every pool song but the current one, sorts by score
     * (highest first, ties in pool order) and keeps the first five.
     */
    method Recommend(current: Song, goal: string, pool: seq<Song>) returns (top: seq<Recommendation>)
      ensures top == Top(SortByScore(Candidates(current, goal, pool)))
      ensures |top| == if EligibleCount(current, pool) < TopCount then EligibleCount(current, pool) else TopCount
      ensures forall i :: 0 <= i < |top| ==> Eligible(current, top[i].song) && top[i].song in pool
      ensures forall i :: 0 <= i < |top| ==>
        top[i].score == Score(current, goal, top[i].song) && top[i].why == Explain(current, goal, top[i].song)
      ensures NonIncreasing(top)
      ensures forall v :: WithScore(top, v) <= WithScore(Candidates(current, goal, pool), v)
      ensures forall t, c :: t in top && c in Candidates(current, goal, pool) && c !in top ==> t.score >= c.score
    {
      var recommendations: seq<Recommendation> := [];
      for i := 0 to |pool|
        invariant recommendations == Candidates(current, goal, pool[..i])
      {
        CandidatesStep(current, goal, pool, i);
        var song := pool[i];
        if song.Key() == current.Key() {
          continue;
        }
        var score := ScoreCandidate(current, goal, song);
        var why := ExplainCandidate(current, goal, song);
        recommendations := recommendations + [Recommendation(score, song, why)];
      }
      assert pool[..|pool|] == pool;
      top := Top(SortByScore(recommendations));
      RecommendSpec(current, goal, pool, top);
    }
  }

  /**
   * The body of load_songs' loop for line i, up to the duplicate check: strip, skip
   * blank and header lines, split, read the last three fields, skip header
   * fragments, split the left side at its first comma and build the song.
   */
  method ReadLine(lines: seq<string>, i: nat) returns (kind: LineKind)
    requires i < |lines|
    ensures kind == Kinds(lines)[i]
  {
    KindsAt(lines, i);
    var line := Trim(lines[i]);
    if line == [] {
      return Blank;
    }
    var lower := RemoveSpaces(Lower(line));
    if lower == HeaderSignature {
      return Header;
    }
    var parts := Fields(line);
    if |parts| < 5 {
      return TooFewFields;
    }
    var energy := parts[|parts| - 1];
    var bpm := parts[|parts| - 2];
    var genre := parts[|parts| - 3];
    if Lower(Trim(bpm)) == "bpm" || Lower(Trim(energy)) == "energy" {
      return HeaderFragment;
    }
    var left := Join(parts[..|parts| - 3], ",");
    if Lacks(left, ',') {
      return MissingArtist;
    }
    var titleArtist := SplitFirst(left, ',');
    var song := NewSong(titleArtist.0, titleArtist.1, genre, bpm, energy);
    if song.bpm == 0 {
      return ZeroBpm;
    }
    return Row(song);
  }

  /** The first half of recommend's loop body for an eligible song: the score, built up term by term. */
  method ScoreCandidate(current: Song, goal: string, song: Song) returns (score: int)
    ensures score == Score(current, goal, song)
  {
    var bpmDiff: int := Abs(song.bpm - current.bpm);
    var energyDiff := song.energy - current.energy;
    score := 100 - bpmDiff * 2;
    if goal == "up" {
      if energyDiff > 0 {
        score := score + 20;
      } else {
        score := score - 5;
      }
    } else if goal == "down" {
      if energyDiff < 0 {
        score := score + 20;
      } else {
        score := score - 5;
      }
    } else {
      if energyDiff == 0 {
        score := score + 10;
      }
    }
    if Lower(song.genre) == Lower(current.genre) {
      score := score + 10;
    }
  }

  /** The second half: the explanation, built up piece by piece and joined with "; ". */
  method ExplainCandidate(current: Song, goal: string, song: Song) returns (why: string)
    ensures why == Explain(current, goal, song)
  {
    var bpmDiff: nat := Abs(song.bpm - current.bpm);
    var energyDiff := song.energy - current.energy;
    var parts: seq<string> := [];
    parts := parts + [BpmLabel + IntToString(bpmDiff)];
    assert parts == [BpmPart(BpmDiff(current, song))];
    if goal != "same" {
      parts := parts + [ChangeLabel + SignedToString(energyDiff) + (" (goal: " + goal + ")")];
    } else {
      parts := parts + [LevelLabel + IntToString(song.energy) + " (goal: same)"];
    }
    assert parts == [BpmPart(BpmDiff(current, song)), EnergyPart(current, goal, song)];
    if Lower(song.genre) == Lower(current.genre) {
      parts := parts + [GenreLabel];
    }
    assert parts == WhyParts(current, goal, song);
    why := Join(parts, "; ");
  }

  /** The recommendation loop's next pool song. */
  lemma CandidatesStep(current: Song, goal: string, pool: seq<Song>, i: nat)
    requires i < |pool|
    ensures Candidates(current, goal, pool[..i + 1]) == Candidates(current, goal, pool[..i])
      + (if Eligible(current, pool[i]) then [Recommendation(Score(current, goal, pool[i]), pool[i], Explain(current, goal, pool[i]))] else [])
  {
    assert pool[..i + 1][..i] == pool[..i];
  }
}
