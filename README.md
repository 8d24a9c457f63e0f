# DJ Song Selector Assistant — a verified model of its core

The DJ assistant reads a hand-maintained catalog of songs from a comma-separated
text file. It then recommends the next track for the song now playing and a
desired energy trajectory ("up", "down" or "same"). This project models the two
algorithms of `dj_assistant.py` that carry the logic, and proves their
properties in Dafny.

* **The tolerant catalog loader** (`Song.__init__`, `Song._safe_int`,
  `Song.key`, the line loop of `DJAssistant.load_songs`).
  * Every line is stripped, and blank and header lines are ignored.
  * The line is split on commas. The last three fields are read from the right
    as genre, bpm and energy.
  * The fields before those three are rejoined and split at their *first*
    comma into title and artist.
  * A bpm that is missing or zero rejects the row. Energy defaults to 3 and is
    clamped into 1..5.
  * The first row of each (lower-cased title, lower-cased artist) key is kept.
  * `loaded` and `skipped` are counted.
  * Modules: `Songs`, `Catalog` (one line), `Loading` (the loop as a fold and
    its reference description), `Assistant` (the imperative `DJAssistant`
    class and the loop bodies).
* **The recommendation engine** (`DJAssistant.recommend`).
  * Every pool song except the current one (by key) is scored as
    `100 - 2*|Δbpm|`, plus an energy-goal adjustment, plus 10 on a
    case-insensitive genre match.
  * An explanation is built for each candidate.
  * The candidates are stably sorted by descending score, and the first five
    are kept.
  * Modules: `Ranking` (specification functions and lemmas) and
    `Assistant.DJAssistant.Recommend` (the loop).
* **The genre helpers of `choose_genre_filter` and `run`**: the sorted list of
  distinct genres, the case-insensitive lookup of a typed genre in it, and the
  pool selection with its fallback to the whole catalog (module `Genres`).
* **Text** models the Python string primitives these rely on, on ASCII:
  `strip`, `lower`, `replace(" ", "")`, `split(",")`, `",".join`,
  `split(",", 1)`, `int()`, and the `{n}` / `{n:+d}` formats.

Where the code's comments and the code disagree, the model follows the code:

* **The title/artist split.** A row whose title holds a comma, such as
  `My Neck, My Back,Unknown Artist,Hip Hop,95,4`, loads as title `My Neck` and
  artist `My Back,Unknown Artist`. It does not load as title
  `My Neck, My Back`. The rejoined left side is split at its first comma
  (`dj_assistant.py:146`), although the comment at `dj_assistant.py:120-124`
  says the title may hold commas. `Catalog.RowFields`, `Catalog.LeftSide` and
  `Catalog.EmbeddedCommaRow` state this.
* **Goals other than "up", "down" and "same".** The score treats any such goal
  as "same" (`dj_assistant.py:258`). The explanation treats any goal other than
  "same" as a direction (`dj_assistant.py:269`). The model keeps the goal an
  arbitrary string and does both.
* **The no-artist branch.** The check for a left side without a comma
  (`dj_assistant.py:142-144`) can never fire. At least five fields leave at
  least two on the left, and joining them always inserts a comma
  (`Catalog.MissingArtistUnreachable`).
* **The ordering in the loader.** Each line is classified (`Catalog.Classify`,
  computed by `Assistant.ReadLine`), and the loop folds the classifications
  into the loop variables (`Loading.Fold`, run by
  `Assistant.DJAssistant.LoadSongs`).
  * `Loading.RunSpec` describes the result without the loop: the stored songs
    are the first occurrence of each key among the valid rows, in line order.
  * `loaded` is their number, and `skipped` counts the bad lines.
* **Empty catalog.** Where `load_songs` calls `exit()` on an empty catalog,
  `LoadSongs` returns `Failure(CatalogEmpty)`.

## Model

| member | source | states |
|---|---|---|
| `Text.TrimCuts` | dj_assistant.py:108 | stripping removes only whitespace, and only at the two ends of the line |
| `Text.Split` | dj_assistant.py:118 | `line.split(",")` yields one more piece than there are commas, no piece holds a comma, and joining the pieces with commas gives the line back |
| `Text.SplitJoin` | dj_assistant.py:139 | splitting on commas undoes a comma join of comma-free parts |
| `Text.SplitFirst` | dj_assistant.py:146 | `left.split(",", 1)` gives a comma-free head and the rest, with head + "," + rest equal to `left` |
| `Text.LowerEqual` | dj_assistant.py:71 | two strings lower to the same string exactly when they have the same length and agree letter by letter up to ASCII case |
| `Text.ParseIntDefined` | dj_assistant.py:62 | `int(str(value).strip())` succeeds exactly when the value is an integer literal with only whitespace around it |
| `Text.IntToStringParses` | dj_assistant.py:268 | the `{n}` format reads back as `n` |
| `Text.SignedToStringParses` | dj_assistant.py:270 | the `{n:+d}` format, sign always written, reads back as `n` |
| `Songs.SafeInt` | dj_assistant.py:60-64 | `_safe_int` gives the parsed integer when the field parses, otherwise the default |
| `Songs.EnergyLevel` | dj_assistant.py:52-58 | stored energy is in 1..5: the parsed value clamped to 1..5, or 3 when the field is not an integer |
| `Songs.MakeSong` | dj_assistant.py:45-58 | the record's title, artist and genre are the stripped arguments, bpm parsed with default 0 and energy as `EnergyLevel` |
| `Songs.NewSong` | dj_assistant.py:45-58 | the constructor's assign-then-overwrite steps give `MakeSong`'s record, with energy in 1..5 |
| `Songs.SameKey` | dj_assistant.py:66-71 | two songs share `key()` exactly when title and artist agree letter by letter up to case |
| `Songs.EnergyExamples` | dj_assistant.py:52-58 | energy "9" is stored as 5, "0" and "-2" as 1, and "high" as 3 |
| `Catalog.Fields` | dj_assistant.py:118 | field i is the i-th comma piece of the line, stripped; the fields number one more than the commas, and each is stripped and comma-free |
| `Catalog.RowFields` | dj_assistant.py:129-148 | a kept row has at least five fields and is the song read from the right: genre, bpm and energy from the last three fields, title from the first field, artist from the fields in between rejoined with commas |
| `Catalog.FieldsRow` | dj_assistant.py:129-153 | for comma-free stripped fields, a valid row's song is `RowFromFields`, its bpm is the integer the bpm field spells, and that bpm is nonzero |
| `Catalog.LeftSide` | dj_assistant.py:139-146 | the rejoined left side always holds a comma and splits into exactly the first field and the rejoined others, all already stripped |
| `Catalog.MissingArtistUnreachable` | dj_assistant.py:139-144 | no line is ever skipped for a left side without a comma |
| `Catalog.RowValid` | dj_assistant.py:148-153 | every row that reaches the duplicate check has bpm ≠ 0 and energy in 1..5 |
| `Catalog.TooFewFieldsIff` | dj_assistant.py:125-127 | a non-blank, non-header line is skipped for too few fields exactly when it has fewer than four commas |
| `Catalog.BpmRejection` | dj_assistant.py:150-153 | past the header-fragment test, a row is kept exactly when its bpm reads as a nonzero integer and skipped exactly when it does not |
| `Catalog.NegativeBpmKept` | dj_assistant.py:150-153 | a bpm of "-5" is not rejected and is stored as -5 |
| `Catalog.EmbeddedCommaRow` | dj_assistant.py:107-153 | the whole line `My Neck, My Back,Unknown Artist,Hip Hop,95,4` is kept as a row with title "My Neck", artist "My Back,Unknown Artist", genre "Hip Hop", bpm 95 and energy 4 |
| `Catalog.RowOf` | dj_assistant.py:129-153 | stripped, comma-free fields that pass the header-fragment test and carry a nonzero bpm are always kept, as the song read from the right |
| `Loading.FoldSpec` | dj_assistant.py:103-162 | after any lines, the stored songs are the first occurrences of the valid rows, the seen set is the keys of all valid rows, `loaded` is the number of stored songs and `skipped` is the number of bad lines |
| `Loading.RunSpec` | dj_assistant.py:103-162 | the loop leaves distinct keys, valid songs only, `loaded == len(songs)`, and the songs in first-seen order |
| `Loading.FirstOccurrencesKeys` | dj_assistant.py:155-162 | deduplication keeps every key of the valid rows and no key twice |
| `Loading.FirstOccurrencesFromRows` | dj_assistant.py:155-162 | each stored song is a valid row that no earlier row shares a key with, and every such row is stored |
| `Loading.KindsAppend` | dj_assistant.py:107-108 | each line is classified on its own, so classifying concatenated files concatenates the classifications |
| `Loading.IgnoredLineAnywhere` | dj_assistant.py:108-115 | a blank line, a header or a bpm/energy header fragment inserted anywhere changes nothing, counters included |
| `Text.RemoveSpacesAppend` | dj_assistant.py:113 | `replace(" ", "")` works piecewise, in order: the result for a + b is the result for a followed by the result for b |
| `Text.RemoveSpacesKeeps` | dj_assistant.py:113 | a string without spaces is left unchanged, so only spaces are removed |
| `Loading.HeaderAnywhere` | dj_assistant.py:112-115 | a line whose lowered, space-free form is the header signature changes nothing wherever it appears |
| `Loading.BadLineSkipped` | dj_assistant.py:125-153 | a bad line anywhere adds exactly one to `skipped` and changes nothing else |
| `Loading.DuplicateDropped` | dj_assistant.py:156-158 | a valid row whose key was already seen changes neither the songs nor either counter |
| `Ranking.ScoreUpperBound` | dj_assistant.py:241-264 | no score exceeds 130. 130 is reached exactly at equal bpm with a genre match and an energy move in the direction of an up/down goal |
| `Ranking.SameGoalUpperBound` | dj_assistant.py:258-264 | for a goal other than up/down, the best score is 120, reached exactly at equal bpm, equal energy and a genre match |
| `Ranking.BpmPenalty` | dj_assistant.py:241-245 | other things equal, every beat per minute of extra distance costs two points |
| `Ranking.GenreBonus` | dj_assistant.py:262-264 | a case-insensitive genre match is worth exactly 10 points |
| `Ranking.WorkedExample` | dj_assistant.py:241-264 | against 120 bpm house at energy 3 with goal "up", 122 bpm house at energy 4 scores 126 and 100 bpm techno at energy 5 scores 80 |
| `Ranking.ExplanationAccountsForScore` | dj_assistant.py:266-276 | the score can be recomputed from the explanation, the current song and the goal: the text gives the bpm distance, the energy move and the genre bonus |
| `Ranking.Candidates` | dj_assistant.py:237-276 | each unsorted entry is an eligible pool song with its own score and explanation, and there are no more entries than pool songs |
| `Ranking.CandidatesAppend` | dj_assistant.py:237-276 | candidates keep pool order: the candidates of a pool a + b are those of a followed by those of b |
| `Ranking.CandidatesOne` | dj_assistant.py:237-276 | a single pool song yields its own (score, song, explanation) entry, or nothing when it is the current song by key |
| `Ranking.CandidatesCount` | dj_assistant.py:237-239 | there is exactly one candidate per pool song whose key differs from the current song's |
| `Ranking.CandidatesComplete` | dj_assistant.py:237-276 | every eligible pool song appears among the candidates with its score and explanation |
| `Ranking.Top` | dj_assistant.py:279 | the result is a prefix of the sorted list of length min(5, its length) |
| `Ranking.SortSpec` | dj_assistant.py:278 | the sort yields a non-increasing permutation of its input that keeps entries of equal score in input order |
| `Ranking.SortedUnique` | dj_assistant.py:278 | only one list is non-increasing and has each score's entries in a given order, so the stable sort's result is determined |
| `Ranking.TopAreBest` | dj_assistant.py:278-279 | every kept entry scores at least as much as every candidate left out |
| `Ranking.TopFacts` | dj_assistant.py:278-279 | the first five are non-increasing, keep each score's entries in input order, and are the best |
| `Ranking.RecommendSpec` | dj_assistant.py:226-279 | recommend returns min(5, number of eligible songs) entries. None is the current song by key. Each has its own score and explanation. Scores are non-increasing, ties keep pool order, and no left-out candidate scores higher |
| `Genres.GenreList` | dj_assistant.py:200 | the genre list is strictly increasing in Python string order and holds exactly the genres of the catalog |
| `Genres.SortedSetUnique` | dj_assistant.py:200 | the strictly sorted list of a set of genres is unique |
| `Genres.MatchGenre` | dj_assistant.py:204-214 | an empty (stripped) input or a genre nothing matches selects none. Otherwise the first listed genre equal to the input up to case is selected |
| `Genres.GenreFilter` | dj_assistant.py:290 | the filtered pool holds exactly the catalog songs of that exact genre |
| `Genres.GenreFilterAppend` | dj_assistant.py:290 | the filter keeps catalog order: filtering a + b gives the filtered a followed by the filtered b |
| `Genres.SelectPool` | dj_assistant.py:288-294 | the pool is never empty for a non-empty catalog. A non-empty genre with songs selects exactly its songs. Anything else selects the whole catalog |
| `Genres.ListedGenreSelects` | dj_assistant.py:288-294 | a non-empty genre taken from the genre list always selects a non-empty pool of exactly that genre |
| `Assistant.DJAssistant.constructor` | dj_assistant.py:85-86 | a new assistant starts with no songs |
| `Assistant.DJAssistant.LoadSongs` | dj_assistant.py:89-171 | the loop appends exactly `Run(lines).songs` to the song list and reports `loaded` and `skipped`. It fails with `CatalogEmpty` when the song list is still empty |
| `Assistant.DJAssistant.Recommend` | dj_assistant.py:226-279 | the scoring loop, the sort and the cut return the first five stably sorted candidates, with every property of `RecommendSpec` |
| `Assistant.ReadLine` | dj_assistant.py:107-153 | the step-by-step parse of one line yields that line's classification |
| `Assistant.ScoreCandidate` | dj_assistant.py:241-264 | the score accumulated step by step equals `Score` |
| `Assistant.ExplainCandidate` | dj_assistant.py:266-276 | the explanation built piece by piece equals `Explain` |

## Left out

- Terminal output and prompts are left out because they are presentation and
  interactive I/O. This covers the `Style` class, `banner`, every `print`,
  `choose_song`'s input loop, the `input()` calls of `choose_genre_filter` and
  `choose_energy_goal`, `main` and the display loop of `run`. The typed genre
  is a parameter of `Genres.MatchGenre`, and the goal is a parameter of
  `Recommend`.
- File handling is left out: `open`/`readlines`, `FileNotFoundError` and the
  `exit()` calls. The loader takes the file's lines as a sequence, and an empty
  catalog is a `Failure(CatalogEmpty)` result.
- `Text.ParseInt` models `int()` only as an optional sign followed by ASCII
  decimal digits, after stripping. Underscores, non-ASCII digits and other
  forms Python accepts read as not an integer.
- `Text.Lower` folds only ASCII letters, and `Text.Trim` strips only ASCII
  whitespace (space, `\t`–`\r`, `\x1c`–`\x1f`). Python's `lower()` and
  `strip()` also act on Unicode.
- `Assistant.DJAssistant.constructor`: the program's constructor also loads
  the catalog. In the model the file name is replaced by the file's lines, so
  `LoadSongs` is called separately, right after construction.
- `Song.__str__` is left out because it is only used for display.
- The in-place `list.sort` is modelled as a value, `Ranking.SortByScore`, a
  stable insertion sort proved to be a non-increasing, order-keeping
  permutation. The model does not capture sorting the list object in place,
  because no other reference to it exists.
