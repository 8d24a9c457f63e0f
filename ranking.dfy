/**
 * The recommendation heuristic: the score of one candidate against the
 * current song and the energy goal, the explanation that goes with it, the
 * stable descending sort by score and the cut to the best five.
 */
module Ranking {
  import opened Wrappers
  import opened Text
  import opened Songs

  /** One entry of the result: (score, song, "; "-joined explanation). */
  datatype Recommendation = Recommendation(score: int, song: Song, why: string)

  /** How many recommendations are returned. */
  const TopCount := 5

  function Abs(n: int): (r: nat)
    ensures r == n || r == -n
  {
    if n < 0 then -n else n
  }

  function BpmDiff(current: Song, s: Song): nat {
    Abs(s.bpm - current.bpm)
  }

  function EnergyDiff(current: Song, s: Song): int {
    s.energy - current.energy
  }

  /** Case-insensitive genre equality. */
  predicate GenreMatch(current: Song, s: Song) {
    Lower(s.genre) == Lower(current.genre)
  }

  /**
   * The energy-direction adjustment. "up" and "down" reward a move in their
   * direction with +20 and penalise anything else with -5; every other goal
   * is scored as "same": +10 for an unchanged energy, 0 otherwise.
   */
  function GoalAdjustment(goal: string, energyDiff: int): int {
    if goal == "up" then (if energyDiff > 0 then 20 else -5)
    else if goal == "down" then (if energyDiff < 0 then 20 else -5)
    else if energyDiff == 0 then 10
    else 0
  }

  /** The candidate's score. */
  function Score(current: Song, goal: string, s: Song): int {
    100 - 2 * BpmDiff(current, s) + GoalAdjustment(goal, EnergyDiff(current, s))
      + (if GenreMatch(current, s) then 10 else 0)
  }

  /** The pieces of the explanation, in order. */
  function WhyParts(current: Song, goal: string, s: Song): seq<string> {
    [BpmPart(BpmDiff(current, s)), EnergyPart(current, goal, s)]
    + (if GenreMatch(current, s) then [GenreLabel] else [])
  }

  /** The bpm part of an explanation: the label and the distance. */
  function BpmPart(d: nat): string {
    BpmLabel + IntToString(d)
  }

  /** The energy part: the signed change and the goal, or for "same" the candidate's level. */
  function EnergyPart(current: Song, goal: string, s: Song): string {
    if goal != "same" then ChangeLabel + SignedToString(EnergyDiff(current, s)) + GoalNote(goal)
    else LevelLabel + IntToString(s.energy) + " (goal: same)"
  }

  /** The goal note that closes the energy-change part. */
  function GoalNote(goal: string): string {
    " (goal: " + goal + ")"
  }

  const BpmLabel := "BPM diff: "
  const ChangeLabel := "Energy change: "
  const LevelLabel := "Energy: "
  const GenreLabel := "Genre match: +10"

  /** The explanation string. */
  function Explain(current: Song, goal: string, s: Song): string {
    Join(WhyParts(current, goal, s), "; ")
  }

  // ------------------------------------------------------------ scoring lemmas

  /**
   * No candidate scores above 130, and 130 is reached exactly by a song at
   * the same bpm, in the same genre, whose energy moves the way an "up" or
   * "down" goal asks.
   */
  lemma ScoreUpperBound(current: Song, goal: string, s: Song)
    ensures Score(current, goal, s) <= 130
    ensures Score(current, goal, s) == 130 <==>
      && s.bpm == current.bpm
      && GenreMatch(current, s)
      && ((goal == "up" && s.energy > current.energy) || (goal == "down" && s.energy < current.energy))
  {
  }

  /** With any goal other than "up" and "down", the best score is 120. */
  lemma SameGoalUpperBound(current: Song, goal: string, s: Song)
    requires goal != "up" && goal != "down"
    ensures Score(current, goal, s) <= 120
    ensures Score(current, goal, s) == 120 <==>
      s.bpm == current.bpm && GenreMatch(current, s) && s.energy == current.energy
  {
  }

  /** Each beat per minute of distance costs two points, other things equal. */
  lemma BpmPenalty(current: Song, goal: string, s: Song, t: Song)
    requires s.energy == t.energy && s.genre == t.genre
    ensures Score(current, goal, s) - Score(current, goal, t) == 2 * (BpmDiff(current, t) - BpmDiff(current, s))
  {
  }

  /** The genre bonus needs only the same genre up to case. */
  lemma GenreBonus(current: Song, goal: string, s: Song, t: Song)
    requires s.bpm == t.bpm && s.energy == t.energy
    requires GenreMatch(current, s) && !GenreMatch(current, t)
    ensures Score(current, goal, s) == Score(current, goal, t) + 10
  {
  }

  /**
   * An example: playing 120 bpm house at energy 3 with the goal
   * "up", 122 bpm house at energy 4 scores 126 and 100 bpm techno at energy
   * 5 scores 80.
   */
  lemma WorkedExample()
    ensures Score(Song("A", "X", "house", 120, 3), "up", Song("B", "Y", "house", 122, 4)) == 126
    ensures Score(Song("A", "X", "house", 120, 3), "up", Song("C", "Z", "techno", 100, 5)) == 80
  {
    assert Lower("techno") != Lower("house") by {
      LowerAt("techno", 0);
      LowerAt("house", 0);
    }
  }

  // ------------------------------------------------------ reading an explanation

  /** The number that follows a label, up to the next space. */
  function NumberAfter(tag: string, part: string): Option<int> {
    match StripTag(tag, part)
    case Some(rest) => ParseInt(Token(rest))
    case None => None
  }

  /** What follows tag in part, when part starts with tag. */
  function StripTag(tag: string, part: string): Option<string> {
    if tag == [] then Some(part)
    else if part != [] && part[0] == tag[0] then StripTag(tag[1..], part[1..])
    else None
  }

  /** A string that starts with tag leaves the rest once tag is stripped. */
  lemma {:induction false} StripTagOf(tag: string, rest: string)
    ensures StripTag(tag, tag + rest) == Some(rest)
  {
    if tag != [] {
      assert (tag + rest)[0] == tag[0];
      assert (tag + rest)[1..] == tag[1..] + rest;
      StripTagOf(tag[1..], rest);
    } else {
      assert tag + rest == rest;
    }
  }

  /**
   * Recomputes a score from an explanation, the current song and the goal
   * alone: the bpm distance and the energy move are read off the text (for
   * the "same" goal the text gives the candidate's energy, from which the
   * move follows), and a third piece is the genre bonus.
   */
  function ReadBack(current: Song, goal: string, parts: seq<string>): Option<int> {
    if |parts| < 2 then None
    else
      var d := NumberAfter(BpmLabel, parts[0]);
      var move := ReadMove(current, goal, parts[1]);
      if d.None? || move.None? then None
      else Some(100 - 2 * d.value + GoalAdjustment(goal, move.value) + ReadBonus(parts))
  }

  /** The energy move an energy piece states, directly or through the candidate's energy. */
  function ReadMove(current: Song, goal: string, part: string): Option<int> {
    if goal != "same" then NumberAfter(ChangeLabel, part)
    else match NumberAfter(LevelLabel, part)
      case Some(e) => Some(e - current.energy)
      case None => None
  }

  /** The genre bonus a third piece states. */
  function ReadBonus(parts: seq<string>): int {
    if |parts| == 3 && parts[2] == GenreLabel then 10 else 0
  }

  /** A label followed by a formatted integer and then a space or the end reads back as that integer. */
  lemma ReadNumber(tag: string, n: int, num: string, rest: string)
    requires num != [] && Lacks(num, ' ') && ParseInt(num) == Some(n)
    requires rest == [] || rest[0] == ' '
    ensures NumberAfter(tag, tag + num + rest) == Some(n)
  {
    assert tag + num + rest == tag + (num + rest);
    StripTagOf(tag, num + rest);
    TokenOf(num, rest);
  }

  /** The explanation accounts for the whole score: reading it back gives the score. */
  lemma ExplanationAccountsForScore(current: Song, goal: string, s: Song)
    ensures ReadBack(current, goal, WhyParts(current, goal, s)) == Some(Score(current, goal, s))
  {
    WhyPartsShape(current, goal, s);
    ReadBpm(BpmDiff(current, s));
    ReadEnergy(current, goal, s);
    ReadWhy(current, goal, s, WhyParts(current, goal, s));
  }

  /** Pieces that state the bpm distance, the energy move and the genre bonus read back as the score. */
  lemma ReadWhy(current: Song, goal: string, s: Song, parts: seq<string>)
    requires |parts| >= 2
    requires NumberAfter(BpmLabel, parts[0]) == Some(BpmDiff(current, s))
    requires ReadMove(current, goal, parts[1]) == Some(EnergyDiff(current, s))
    requires ReadBonus(parts) == if GenreMatch(current, s) then 10 else 0
    ensures ReadBack(current, goal, parts) == Some(Score(current, goal, s))
  {
    var d, move := BpmDiff(current, s), EnergyDiff(current, s);
    ReadParts(current, goal, d, move, parts);
    assert Score(current, goal, s) == 100 - 2 * d + GoalAdjustment(goal, move) + ReadBonus(parts);
  }

  /** The explanation has the bpm piece, the energy piece and, on a genre match, the genre piece. */
  lemma WhyPartsShape(current: Song, goal: string, s: Song)
    ensures |WhyParts(current, goal, s)| >= 2
    ensures WhyParts(current, goal, s)[0] == BpmPart(BpmDiff(current, s))
    ensures WhyParts(current, goal, s)[1] == EnergyPart(current, goal, s)
    ensures ReadBonus(WhyParts(current, goal, s)) == if GenreMatch(current, s) then 10 else 0
  {
  }

  /** ReadBack adds up what it reads off the pieces. */
  lemma ReadParts(current: Song, goal: string, d: int, move: int, parts: seq<string>)
    requires |parts| >= 2
    requires NumberAfter(BpmLabel, parts[0]) == Some(d)
    requires ReadMove(current, goal, parts[1]) == Some(move)
    ensures ReadBack(current, goal, parts) == Some(100 - 2 * d + GoalAdjustment(goal, move) + ReadBonus(parts))
  {
  }

  /** The bpm piece gives back the bpm distance. */
  lemma ReadBpm(d: nat)
    ensures NumberAfter(BpmLabel, BpmPart(d)) == Some(d)
  {
    IntToStringParses(d);
    ReadNumber(BpmLabel, d, IntToString(d), "");
    assert BpmLabel + IntToString(d) + "" == BpmPart(d);
  }

  /** The energy piece gives back the energy move. */
  lemma ReadEnergy(current: Song, goal: string, s: Song)
    ensures ReadMove(current, goal, EnergyPart(current, goal, s)) == Some(EnergyDiff(current, s))
  {
    if goal != "same" {
      ReadEnergyChange(current, goal, s);
    } else {
      ReadEnergyLevel(current, goal, s);
    }
  }

  lemma ReadEnergyChange(current: Song, goal: string, s: Song)
    requires goal != "same"
    ensures ReadMove(current, goal, EnergyPart(current, goal, s)) == Some(EnergyDiff(current, s))
  {
    var part := EnergyPart(current, goal, s);
    ReadChange(current, goal, s, part);
    MoveOfChange(current, goal, part);
  }

  lemma ReadEnergyLevel(current: Song, goal: string, s: Song)
    requires goal == "same"
    ensures ReadMove(current, goal, EnergyPart(current, goal, s)) == Some(EnergyDiff(current, s))
  {
    var part := EnergyPart(current, goal, s);
    ReadLevel(current, s, part);
    MoveOfLevel(current, goal, part);
  }

  lemma MoveOfChange(current: Song, goal: string, part: string)
    requires goal != "same"
    ensures ReadMove(current, goal, part) == NumberAfter(ChangeLabel, part)
  {
  }

  lemma MoveOfLevel(current: Song, goal: string, part: string)
    requires goal == "same"
    ensures NumberAfter(LevelLabel, part).Some? ==> ReadMove(current, goal, part) == Some(NumberAfter(LevelLabel, part).value - current.energy)
  {
  }

  lemma ReadChange(current: Song, goal: string, s: Song, part: string)
    requires part == ChangeLabel + SignedToString(EnergyDiff(current, s)) + GoalNote(goal)
    ensures NumberAfter(ChangeLabel, part) == Some(EnergyDiff(current, s))
  {
    var ed := EnergyDiff(current, s);
    SignedToStringParses(ed);
    ReadNumber(ChangeLabel, ed, SignedToString(ed), GoalNote(goal));
  }

  lemma ReadLevel(current: Song, s: Song, part: string)
    requires part == LevelLabel + IntToString(s.energy) + " (goal: same)"
    ensures NumberAfter(LevelLabel, part) == Some(s.energy)
  {
    IntToStringParses(s.energy);
    ReadNumber(LevelLabel, s.energy, IntToString(s.energy), " (goal: same)");
  }

  // -------------------------------------------------------------- candidates

  /** A pool song is a candidate unless it is the current song by key. */
  predicate Eligible(current: Song, s: Song) {
    s.Key() != current.Key()
  }

  /** The unsorted recommendations: one per eligible pool song, in pool order. */
  function Candidates(current: Song, goal: string, pool: seq<Song>): (rs: seq<Recommendation>)
    ensures |rs| <= |pool|
    ensures forall i :: 0 <= i < |rs| ==> Eligible(current, rs[i].song) && rs[i].song in pool
    ensures forall i :: 0 <= i < |rs| ==>
      rs[i].score == Score(current, goal, rs[i].song) && rs[i].why == Explain(current, goal, rs[i].song)
  {
    if pool == [] then []
    else
      var s := pool[|pool| - 1];
      var before := Candidates(current, goal, pool[..|pool| - 1]);
      before + (if Eligible(current, s) then [Recommendation(Score(current, goal, s), s, Explain(current, goal, s))] else [])
  }

  /** The number of pool songs that are not the current song. */
  function EligibleCount(current: Song, pool: seq<Song>): nat {
    if pool == [] then 0
    else EligibleCount(current, pool[..|pool| - 1]) + (if Eligible(current, pool[|pool| - 1]) then 1 else 0)
  }

  /** There is one candidate for every eligible pool song. */
  lemma {:induction false} CandidatesCount(current: Song, goal: string, pool: seq<Song>)
    ensures |Candidates(current, goal, pool)| == EligibleCount(current, pool)
  {
    if pool != [] {
      CandidatesCount(current, goal, pool[..|pool| - 1]);
    }
  }

  /**
   * Candidates keep pool order: the candidates of two pools one after the
   * other are those of the first followed by those of the second.
   */
  lemma {:induction false} CandidatesAppend(current: Song, goal: string, a: seq<Song>, b: seq<Song>)
    ensures Candidates(current, goal, a + b) == Candidates(current, goal, a) + Candidates(current, goal, b)
  {
    if b != [] {
      var b' := b[..|b| - 1];
      CandidatesAppend(current, goal, a, b');
      assert (a + b)[..|a + b| - 1] == a + b';
      assert (a + b)[|a + b| - 1] == b[|b| - 1];
    } else {
      assert a + b == a;
    }
  }

  /** One pool song gives its own recommendation, unless it is the current song by key. */
  lemma CandidatesOne(current: Song, goal: string, s: Song)
    ensures Candidates(current, goal, [s])
         == if Eligible(current, s) then [Recommendation(Score(current, goal, s), s, Explain(current, goal, s))] else []
  {
    assert [s][..0] == [];
  }

  /** Every eligible pool song is a candidate. */
  lemma {:induction false} CandidatesComplete(current: Song, goal: string, pool: seq<Song>, s: Song)
    requires s in pool && Eligible(current, s)
    ensures Recommendation(Score(current, goal, s), s, Explain(current, goal, s)) in Candidates(current, goal, pool)
  {
    var init := pool[..|pool| - 1];
    if s != pool[|pool| - 1] {
      assert pool == init + [pool[|pool| - 1]];
      assert s in init;
      CandidatesComplete(current, goal, init, s);
    }
  }

  // -------------------------------------------------------------- stable sort

  predicate NonIncreasing(rs: seq<Recommendation>) {
    forall i, j :: 0 <= i < j < |rs| ==> rs[i].score >= rs[j].score
  }

  /** The entries with score v, in their order. */
  function WithScore(rs: seq<Recommendation>, v: int): seq<Recommendation> {
    if rs == [] then []
    else (if rs[0].score == v then [rs[0]] else []) + WithScore(rs[1..], v)
  }

  /** Places r after every entry scoring at least as much and before the first scoring less. */
  function Insert(sorted: seq<Recommendation>, r: Recommendation): seq<Recommendation> {
    if sorted == [] then [r]
    else if sorted[0].score < r.score then [r] + sorted
    else [sorted[0]] + Insert(sorted[1..], r)
  }

  /**
   * The descending sort by score: highest score first. Python's sort
   * is stable, also with reverse=True, so equal scores keep their order.
   */
  function SortByScore(rs: seq<Recommendation>): seq<Recommendation> {
    if rs == [] then []
    else Insert(SortByScore(rs[..|rs| - 1]), rs[|rs| - 1])
  }

  /** The first TopCount entries of the sorted list (all of them when fewer). */
  function Top(sorted: seq<Recommendation>): (top: seq<Recommendation>)
    ensures |top| == if |sorted| < TopCount then |sorted| else TopCount
    ensures top <= sorted
  {
    if |sorted| < TopCount then sorted else sorted[..TopCount]
  }

  /** Inserting keeps the list non-increasing and adds exactly r. */
  lemma InsertFacts(sorted: seq<Recommendation>, r: Recommendation)
    requires NonIncreasing(sorted)
    ensures NonIncreasing(Insert(sorted, r))
    ensures multiset(Insert(sorted, r)) == multiset(sorted) + multiset{r}
  {
    InsertSorted(sorted, r);
    InsertPermutes(sorted, r);
  }

  lemma {:induction false} InsertPermutes(sorted: seq<Recommendation>, r: Recommendation)
    ensures multiset(Insert(sorted, r)) == multiset(sorted) + multiset{r}
  {
    if sorted != [] && sorted[0].score >= r.score {
      InsertPermutes(sorted[1..], r);
      assert sorted == [sorted[0]] + sorted[1..];
    }
  }

  /** Inserting an entry that scores at most m into entries that score at most m. */
  lemma {:induction false} InsertBelow(sorted: seq<Recommendation>, r: Recommendation, m: int)
    requires forall i :: 0 <= i < |sorted| ==> sorted[i].score <= m
    requires r.score <= m
    ensures forall i :: 0 <= i < |Insert(sorted, r)| ==> Insert(sorted, r)[i].score <= m
  {
    if sorted != [] && sorted[0].score >= r.score {
      InsertBelow(sorted[1..], r, m);
    }
  }

  lemma {:induction false} InsertSorted(sorted: seq<Recommendation>, r: Recommendation)
    requires NonIncreasing(sorted)
    ensures NonIncreasing(Insert(sorted, r))
  {
    if sorted != [] && sorted[0].score >= r.score {
      var rest := Insert(sorted[1..], r);
      InsertSorted(sorted[1..], r);
      InsertBelow(sorted[1..], r, sorted[0].score);
      assert Insert(sorted, r) == [sorted[0]] + rest;
    }
  }

  /** Inserting adds r to the entries of its own score, at their end, and leaves the other scores alone. */
  lemma {:induction false} InsertStable(sorted: seq<Recommendation>, r: Recommendation, v: int)
    requires NonIncreasing(sorted)
    ensures WithScore(Insert(sorted, r), v) == WithScore(sorted, v) + (if r.score == v then [r] else [])
  {
    if sorted == [] {
      assert WithScore([r], v) == (if r.score == v then [r] else []) + WithScore([], v);
    } else if sorted[0].score < r.score {
      var ins := [r] + sorted;
      assert ins[1..] == sorted;
      if r.score == v {
        NoneAbove(sorted, v);
      }
    } else {
      var ins := [sorted[0]] + Insert(sorted[1..], r);
      assert ins[1..] == Insert(sorted[1..], r);
      InsertStable(sorted[1..], r, v);
    }
  }

  /** A non-increasing list whose head scores below v has no entry scoring v. */
  lemma {:induction false} NoneAbove(sorted: seq<Recommendation>, v: int)
    requires NonIncreasing(sorted)
    requires sorted != [] ==> sorted[0].score < v
    ensures WithScore(sorted, v) == []
  {
    if sorted != [] {
      NoneAbove(sorted[1..], v);
    }
  }

  lemma {:induction false} WithScoreAppend(a: seq<Recommendation>, b: seq<Recommendation>, v: int)
    ensures WithScore(a + b, v) == WithScore(a, v) + WithScore(b, v)
  {
    if a == [] {
      assert a + b == b;
    } else {
      assert (a + b)[1..] == a[1..] + b;
      WithScoreAppend(a[1..], b, v);
    }
  }

  /**
   * The sort's result is non-increasing in score, is a permutation of its
   * input, and lists the entries of each score in their input order.
   */
  lemma {:induction false} SortSpec(rs: seq<Recommendation>)
    ensures NonIncreasing(SortByScore(rs))
    ensures multiset(SortByScore(rs)) == multiset(rs)
    ensures forall v :: WithScore(SortByScore(rs), v) == WithScore(rs, v)
  {
    if rs != [] {
      var init := rs[..|rs| - 1];
      var r := rs[|rs| - 1];
      SortSpec(init);
      InsertFacts(SortByScore(init), r);
      assert rs == init + [r];
      assert SortByScore(rs) == Insert(SortByScore(init), r);
      forall v ensures WithScore(SortByScore(rs), v) == WithScore(rs, v) {
        SortStep(init, r, v);
      }
    }
  }

  /** Sorting one more entry keeps the entries of every score in input order. */
  lemma SortStep(init: seq<Recommendation>, r: Recommendation, v: int)
    requires NonIncreasing(SortByScore(init))
    requires WithScore(SortByScore(init), v) == WithScore(init, v)
    ensures WithScore(SortByScore(init + [r]), v) == WithScore(init + [r], v)
  {
    var rs := init + [r];
    assert rs[..|rs| - 1] == init && rs[|rs| - 1] == r;
    InsertStable(SortByScore(init), r, v);
    WithScoreAppend(init, [r], v);
    assert WithScore([r], v) == (if r.score == v then [r] else []) + WithScore([], v);
  }

  /** A non-empty list has an entry with its head's score. */
  lemma HeadScored(rs: seq<Recommendation>)
    ensures rs != [] ==> WithScore(rs, rs[0].score) != []
  {
  }

  /** Two non-increasing lists that agree on every score's entries are the same list. */
  lemma {:induction false} SortedUnique(xs: seq<Recommendation>, ys: seq<Recommendation>)
    requires NonIncreasing(xs) && NonIncreasing(ys)
    requires forall v :: WithScore(xs, v) == WithScore(ys, v)
    ensures xs == ys
  {
    if xs != [] && ys != [] {
      var m := if xs[0].score >= ys[0].score then xs[0].score else ys[0].score;
      if xs[0].score < m {
        NoneAbove(xs, m);
      } else if ys[0].score < m {
        NoneAbove(ys, m);
      }
      assert xs[0].score == ys[0].score;
      assert WithScore(xs, m)[0] == xs[0];
      assert WithScore(ys, m)[0] == ys[0];
      assert xs[0] == ys[0];
      forall v ensures WithScore(xs[1..], v) == WithScore(ys[1..], v) {
        var p := if xs[0].score == v then [xs[0]] else [];
        assert WithScore(xs, v) == p + WithScore(xs[1..], v);
        assert WithScore(ys, v) == p + WithScore(ys[1..], v);
        assert WithScore(xs[1..], v) == (p + WithScore(xs[1..], v))[|p|..];
        assert WithScore(ys[1..], v) == (p + WithScore(ys[1..], v))[|p|..];
      }
      SortedUnique(xs[1..], ys[1..]);
      assert xs == [xs[0]] + xs[1..];
      assert ys == [ys[0]] + ys[1..];
    } else {
      HeadScored(xs);
      HeadScored(ys);
    }
  }

  /**
   * Every entry of the top five scores at least as much as every candidate
   * left out of it.
   */
  lemma TopAreBest(rs: seq<Recommendation>)
    ensures forall t, c :: t in Top(SortByScore(rs)) && c in rs && c !in Top(SortByScore(rs)) ==> t.score >= c.score
  {
    var sorted := SortByScore(rs);
    var top := Top(sorted);
    SortSpec(rs);
    forall t, c | t in top && c in rs && c !in top ensures t.score >= c.score {
      assert c in multiset(sorted);
      var j :| 0 <= j < |sorted| && sorted[j] == c;
      var i :| 0 <= i < |top| && top[i] == t;
      assert sorted[i] == t;
      if j < |top| {
        assert top[j] == c;
      }
    }
  }

  /** Keeping a prefix keeps a prefix of each score's entries. */
  lemma {:induction false} WithScorePrefix(a: seq<Recommendation>, b: seq<Recommendation>, v: int)
    requires a <= b
    ensures WithScore(a, v) <= WithScore(b, v)
  {
    if a != [] {
      assert a[1..] <= b[1..];
      WithScorePrefix(a[1..], b[1..], v);
    }
  }

  /** The first five of the sorted candidates: sorted, stable and the best. */
  lemma TopFacts(rs: seq<Recommendation>)
    ensures NonIncreasing(Top(SortByScore(rs)))
    ensures forall v :: WithScore(Top(SortByScore(rs)), v) <= WithScore(rs, v)
    ensures forall t, c :: t in Top(SortByScore(rs)) && c in rs && c !in Top(SortByScore(rs)) ==> t.score >= c.score
  {
    var sorted := SortByScore(rs);
    SortSpec(rs);
    TopAreBest(rs);
    forall v ensures WithScore(Top(sorted), v) <= WithScore(rs, v) {
      WithScorePrefix(Top(sorted), sorted, v);
    }
  }

  /**
   * What recommend returns: the first five of the stably sorted candidates,
   * as many as there are eligible songs up to five, each an eligible pool
   * song with its own score and explanation, highest score first, equal
   * scores in pool order, and no left-out candidate scoring higher.
   */
  lemma RecommendSpec(current: Song, goal: string, pool: seq<Song>, top: seq<Recommendation>)
    requires top == Top(SortByScore(Candidates(current, goal, pool)))
    ensures |top| == if EligibleCount(current, pool) < TopCount then EligibleCount(current, pool) else TopCount
    ensures forall i :: 0 <= i < |top| ==> Eligible(current, top[i].song) && top[i].song in pool
    ensures forall i :: 0 <= i < |top| ==>
      top[i].score == Score(current, goal, top[i].song) && top[i].why == Explain(current, goal, top[i].song)
    ensures NonIncreasing(top)
    ensures forall v :: WithScore(top, v) <= WithScore(Candidates(current, goal, pool), v)
    ensures forall t, c :: t in top && c in Candidates(current, goal, pool) && c !in top ==> t.score >= c.score
  {
    var rs := Candidates(current, goal, pool);
    var sorted := SortByScore(rs);
    SortSpec(rs);
    CandidatesCount(current, goal, pool);
    assert |sorted| == |rs| by {
      assert |multiset(sorted)| == |multiset(rs)|;
    }
    forall i | 0 <= i < |top| ensures top[i] in rs {
      assert top[i] == sorted[i];
      assert sorted[i] in multiset(rs);
    }
    TopFacts(rs);
  }
}
