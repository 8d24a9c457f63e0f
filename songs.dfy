/**
 * One catalog entry: how the raw text fields of a row become a Song
 * (stripped strings, integers with defaults, energy clamped to 1..5) and the
 * identity key that detects duplicates.
 */
module Songs {
  import opened Wrappers
  import opened Text

  /** The duplicate-detection key: (lower-cased title, lower-cased artist). */
  type Key = (string, string)

  datatype Song = Song(title: string, artist: string, genre: string, bpm: int, energy: int) {
    function Key(): Key {
      (Lower(title), Lower(artist))
    }
  }

  /** Two strings that agree letter by letter up to ASCII case. */
  predicate EqualIgnoringCase(x: string, y: string) {
    |x| == |y| && forall i :: 0 <= i < |x| ==> LowerChar(x[i]) == LowerChar(y[i])
  }

  /** Two songs share a key exactly when title and artist agree ignoring case. */
  lemma SameKey(a: Song, b: Song)
    ensures a.Key() == b.Key() <==> EqualIgnoringCase(a.title, b.title) && EqualIgnoringCase(a.artist, b.artist)
  {
    LowerEqual(a.title, b.title);
    LowerEqual(a.artist, b.artist);
  }

  /** _safe_int: the integer the field spells, or the default when it does not spell one. */
  function SafeInt(value: string, default: int): (r: int)
    ensures ParseInt(value).Some? ==> r == ParseInt(value).value
    ensures ParseInt(value).None? ==> r == default
  {
    match ParseInt(value)
    case Some(n) => n
    case None => default
  }

  /** The stored energy: the parsed field (3 when it is not an integer), clamped into 1..5. */
  function EnergyLevel(raw: string): (e: int)
    ensures 1 <= e <= 5
    ensures ParseInt(raw).None? ==> e == 3
    ensures ParseInt(raw).Some? ==> e == Clamp(ParseInt(raw).value, 1, 5)
  {
    var n := SafeInt(raw, 3);
    if n < 1 then 1 else if n > 5 then 5 else n
  }

  /** The point of [lo, hi] closest to n. */
  function Clamp(n: int, lo: int, hi: int): int
    requires lo <= hi
  {
    if n < lo then lo else if n > hi then hi else n
  }

  /** A row's raw fields as Song.__init__ turns them into a record. */
  function MakeSong(title: string, artist: string, genre: string, bpm: string, energy: string): (s: Song)
    ensures s.title == Trim(title) && s.artist == Trim(artist) && s.genre == Trim(genre)
    ensures IsTrimmed(s.title) && IsTrimmed(s.artist) && IsTrimmed(s.genre)
    ensures ParseInt(bpm).None? ==> s.bpm == 0
    ensures ParseInt(bpm).Some? ==> s.bpm == ParseInt(bpm).value
    ensures s.energy == EnergyLevel(energy) && 1 <= s.energy <= 5
  {
    Song(Trim(title), Trim(artist), Trim(genre), SafeInt(bpm, 0), EnergyLevel(energy))
  }

  /**
   * Song.__init__: strip the three text fields, parse bpm (default 0) and
   * energy (default 3), then overwrite energy when it is out of 1..5.
   */
  method NewSong(title: string, artist: string, genre: string, bpm: string, energy: string) returns (s: Song)
    ensures s == MakeSong(title, artist, genre, bpm, energy)
    ensures 1 <= s.energy <= 5
  {
    var e := SafeInt(energy, 3);
    if e < 1 {
      e := 1;
    }
    if e > 5 {
      e := 5;
    }
    s := Song(Trim(title), Trim(artist), Trim(genre), SafeInt(bpm, 0), e);
  }

  /** The energy examples: "9" is clamped to 5, "0" to 1, and a word defaults to 3. */
  lemma EnergyExamples()
    ensures EnergyLevel("9") == 5
    ensures EnergyLevel("0") == 1
    ensures EnergyLevel("-2") == 1
    ensures EnergyLevel("high") == 3
  {
    IntToStringParses(9);
    IntToStringParses(0);
    IntToStringParses(-2);
    assert IntToString(9) == "9";
    assert IntToString(0) == "0";
    assert IntToString(-2) == "-2";
    assert IsTrimmed("high");
    TrimTrimmed("high");
    assert !IsInteger("high");
  }
}
