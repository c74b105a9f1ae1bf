# Chess games review: time spent per move class

This project models the part of the Chess_Games_Review scripts that reviews a whole
PGN archive of one player's games. It covers:

- how the archive text is cut into games at every `[Event "…"]` header and the
  blank pieces are dropped;
- how the `[TimeControl "base+increment"]` tag is found and parsed with Python's
  `int()`;
- how the base time picks the speed class: bullet, blitz, rapid or classic;
- how the player's side is found from the `[White "name"]` tag;
- how the player's own plies are picked from the engine's per-ply classifications
  and clock readings, and how a think time is worked out for each;
- how the non-zero think times are filed under the seven move classes (blunder,
  mistake, inaccuracy, good, excellent, best, book) of the speed class's bucket;
- one pass of the main loop, which ties these steps together, including every
  exception the modelled steps of a pass can raise (the engine review itself is
  outside the model; see "Left out").

Modules:

- `Wrappers`: Python's exceptions (`KeyError`, `ValueError`, `TypeError`,
  `IndexError`) as an `Error` value, with `Option`, `Result` and `Outcome`.
- `Text`: `str.isspace`, `str.strip()` and the substring test `a in b`.
- `Archive`: `re.split` with the zero-width lookahead `(?=\[Event\s+".*?"\])`,
  followed by the strip-and-filter comprehension.
- `Scans`: general facts about scanning a text left to right for the positions where
  a test holds, and about moving such positions by an offset.
- `ArchiveRecords`: archives written as well-formed games joined by a single line
  break each (`"\n".join`), and the proof that extracting from them gives back
  exactly those games.
- `TimeControl`:
  - `determine_time_control`;
  - `extract_time_control`: the regular-expression search, `split('+')` with its
    exactly-two-parts unpacking, and `int()` on ASCII digits (an optional sign,
    single underscores between digits, and the surrounding whitespace `int()` skips:
    tab to carriage return, space and non-ASCII whitespace, but not the separators
    U+001C to U+001F, which `str.strip()` does remove);
  - the round trip from a rendered tag back to its numbers.
- `ReviewClasses`:
  - `GameResults` as a class. Only the fields the pipeline reads are kept.
  - `MoveClassification` as a class whose `categories` map, `this_time_control_was_analysed`
    flag and `time_control_str` are fields that its methods update.
- `ThinkTime`: `extract_player_results`. It is an imperative method with a loop,
  proved equal to a specification function. Lemmas give that function's
  shape, its failure condition, the think-time recurrence, the sum of all think
  times, and its independence from the opponent's plies.
- `Aggregate`: `classify_time_stamps`. It is an imperative method with a loop and
  seven per-class lists. It is proved to extend every bucket list by the filtered
  times and to set the flag. Lemmas show that the filing is per-class
  filtering that keeps order, drops zero times and unknown labels, and composes
  across games.
- `Review`: `get_player_color`, and one pass of the main loop for one game.
  - `PlanReview` is the specification of what a pass decides before any bucket is
    touched. Lemmas about it state when each exception is raised, when a game is
    skipped, and under which speed class a reviewed game is filed.
  - `Route` is the `match` on the speed class.
  - `ReviewGame` is the whole pass. Its helper methods `DecideReview` and
    `DecidePlayer` compute the decision step by step.

Notes on how the code behaves:

- The split pattern is not anchored to the start of a line, so an `[Event "…"]`
  anywhere in the text starts a new piece (`Archive.HeaderAt`).
- `classify_time_stamps` sets the analysed flag unconditionally, even when no time
  was filed (`Aggregate.ClassifyTimeStamps`).
- A game without a `TimeControl` tag reaches `determine_time_control(None)` before
  the `if not start_time` guard, so it raises `TypeError` rather than being skipped
  (`Review.PlanReviewErrors`). A tag whose base time is 0 is skipped.
- With a 10+2 control and clock readings 5.0 then 3.0, the second player's think
  time is `current_time - turn_stamp` = 12 − 3 = 9.0 (`ThinkTime.WorkedExample`).

## Model

| member | source | states |
|---|---|---|
| Text.StripIsSlice | Database_Game_Review.py:68 | `strip()` returns a slice of its argument; everything cut off before and after it is whitespace |
| Text.StripStripped | Database_Game_Review.py:68 | a stripped game neither starts nor ends with whitespace |
| Text.StripEmptyIff | Database_Game_Review.py:68 | `game.strip()` is falsy exactly when the piece is all whitespace, i.e. exactly the pieces the filter drops |
| Text.StripKeepsPrefix | Database_Game_Review.py:68 | stripping a piece that begins with a non-blank prefix keeps that prefix |
| Text.OccursIff | Database_Game_Review.py:10-11 | the left-to-right substring scan answers `pattern in text` exactly when the pattern occurs at some offset |
| Text.ContainsTransitive | Database_Game_Review.py:10-11 | whatever occurs inside an occurrence occurs in the whole text |
| Archive.SkipSpacesSound | Database_Game_Review.py:65 | `\s+` consumes a maximal run of whitespace: all skipped characters are spaces and the next one is not |
| Archive.ClosesOnLineIff | Database_Game_Review.py:65 | the lazy `".*?"\]` tail matches exactly when a `"]` follows on the same line (`.` does not match a newline) |
| Archive.HeaderAtIff | Database_Game_Review.py:65 | the lookahead matches at a position exactly when `[Event`, whitespace, a quote, and a same-line `"]` follow there |
| Archive.HeaderPositionsSound | Database_Game_Review.py:65 | split points are positions where the lookahead matches, in strictly increasing order |
| Archive.HeaderPositionsComplete | Database_Game_Review.py:65 | every position where the lookahead matches is a split point |
| Archive.HeaderPositionsNone | Database_Game_Review.py:65 | with no match, there is no split point |
| Archive.CutPieces | Database_Game_Review.py:65 | cutting at k ascending points gives k + 1 pieces, each the slice between consecutive points |
| Archive.CutConcat | Database_Game_Review.py:65 | the cut pieces joined back give the text again |
| Archive.Pieces | Database_Game_Review.py:65 | `re.split` yields one more piece than there are header matches |
| Archive.PiecesConcat | Database_Game_Review.py:65 | a zero-width split loses no text: the pieces joined are the file content |
| Archive.PiecesStartAtHeaders | Database_Game_Review.py:65 | every piece after the first begins with `[Event` |
| Archive.PieceStartsWithEvent | Database_Game_Review.py:65 | the k-th piece (k ≥ 1) begins with `[Event` |
| Archive.EventTagsDoNotOverlap | Database_Game_Review.py:65 | two `[Event` occurrences are at least the tag's length apart |
| Archive.StripNonBlank | Database_Game_Review.py:68 | the comprehension keeps at most as many games as pieces |
| Archive.StripNonBlankGames | Database_Game_Review.py:68 | every game the comprehension keeps is non-empty and stripped |
| Archive.StripNonBlankKeepsEvent | Database_Game_Review.py:68 | filtering and stripping pieces that start with `[Event` gives games that start with `[Event` |
| Archive.StripNonBlankAppend | Database_Game_Review.py:68 | games keep archive order: filtering a concatenation of pieces is the concatenation of the filtered parts |
| Archive.StripNonBlankSingle | Database_Game_Review.py:68 | one piece yields its stripped text as a game, or nothing if it is blank |
| Archive.ExtractGamesStripped | Database_Game_Review.py:65-68 | every extracted game is non-empty and stripped |
| Archive.GamesAfterFirstStartWithEvent | Database_Game_Review.py:65-68 | every game except possibly the first begins with `[Event` |
| Archive.NoHeaderIsOneGame | Database_Game_Review.py:65-68 | an archive without a header match is a single stripped game, or none if blank |
| ArchiveRecords.ExtractGamesOfRecords | Database_Game_Review.py:65-68 | well-formed games joined by line breaks are extracted as exactly those games, in order |
| ArchiveRecords.ExtractGamesOfRecord | Database_Game_Review.py:65-68 | one well-formed game on its own is extracted as itself |
| ArchiveRecords.ExtractGamesCons | Database_Game_Review.py:65-68 | a well-formed game, a line break and an archive that splits at its start give the game, then the archive's games |
| ArchiveRecords.JoinLinesStartsWithHeader | Database_Game_Review.py:65 | an archive of well-formed games is split at its very start |
| ArchiveRecords.PiecesCons | Database_Game_Review.py:65 | the pieces of a game, a line break and more archive are an empty piece, the game with its line break, then the later pieces of the rest |
| ArchiveRecords.StripGamePieces | Database_Game_Review.py:68 | the empty piece yields no game and the game with its line break yields the game |
| ArchiveRecords.HeaderPositionsCons | Database_Game_Review.py:65 | the split points of a game, a line break and more archive are the start, then the split points of the rest moved past the game |
| ArchiveRecords.NoHeaderInRecordTail | Database_Game_Review.py:65 | no position inside a well-formed game after its start, nor its line break, matches when the next game opens with `[` |
| ArchiveRecords.MatchStaysInRecord | Database_Game_Review.py:65 | a match starting inside a stripped game ends inside it: `.*?` cannot cross the line break and `\s+` stops at the next `[` |
| ArchiveRecords.HeaderAtExtend | Database_Game_Review.py:65 | a match stays a match when text is appended after it |
| ArchiveRecords.HeaderAtShift | Database_Game_Review.py:65 | whether the lookahead matches at a position depends only on the text from there on |
| TimeControl.DetermineTimeControl | Database_Game_Review.py:108-115 | a missing base time raises `TypeError` (`None <= 60`); any integer gets one of the four speed names |
| TimeControl.TimeControlIntervals | Database_Game_Review.py:108-115 | bullet iff t ≤ 60, blitz iff 60 < t ≤ 300, rapid iff 300 < t ≤ 1800, classic iff t > 1800 |
| TimeControl.TimeControlMonotone | Database_Game_Review.py:108-115 | a longer base time never gives a faster speed class |
| TimeControl.DropUnderscores | Database_Game_Review.py:125 | removing `int()`'s digit separators from digits-and-underscores leaves only digits and keeps plain digits unchanged |
| TimeControl.ShowNatValue | Database_Game_Review.py:125 | the decimal rendering of n has digit value n |
| TimeControl.ParseIntShowNat | Database_Game_Review.py:125 | `int(str(n)) == n` for every natural n |
| TimeControl.ParseIntDigitsOf | Database_Game_Review.py:125 | `int()` of a digit string is its value |
| TimeControl.ParseIntDigits | Database_Game_Review.py:125 | `int()` of a non-empty digit string is its decimal value |
| TimeControl.SignedValueOfDigits | Database_Game_Review.py:125 | an unsigned digit string reads as its value |
| TimeControl.SignedValueOfNegatedDigits | Database_Game_Review.py:125 | a digit string after `-` reads as the negated value |
| TimeControl.ParseUnsignedDigits | Database_Game_Review.py:125 | an unsigned run of digits reads as its decimal value |
| TimeControl.IntStripUnpadded | Database_Game_Review.py:125 | text that neither starts nor ends with a character `int()` skips is read as it is |
| TimeControl.IntSpaceIsSpace | Database_Game_Review.py:125 | every character `int()` skips is whitespace to `str.isspace()`; U+001C is whitespace to `isspace()` but `int()` does not skip it |
| TimeControl.ParseIntPadding | Database_Game_Review.py:125 | `int(" 60\n")` is 60, and `int()` of `60` after U+001C raises `ValueError` |
| TimeControl.ParseIntSeparatorPadded | Database_Game_Review.py:125 | a digit string after U+001C is rejected by `int()` |
| TimeControl.SplitPlusSpec | Database_Game_Review.py:124 | `split('+')` unpacks into two names iff the value holds exactly one `+`; the parts rejoined with `+` give the value, and neither holds a `+` |
| TimeControl.SplitUnique | Database_Game_Review.py:124 | a value with one `+` splits in only one way |
| TimeControl.SplitPair | Database_Game_Review.py:124 | two parts without `+` joined by `+` split back into exactly those parts |
| TimeControl.SplitDigitPair | Database_Game_Review.py:124 | `digits+digits` splits into exactly those two digit strings |
| TimeControl.TagValueAtIff | Database_Game_Review.py:120 | the pattern `\[TimeControl "([^"]+)"\]` matches at a position with group 1 equal to v iff the text there is the tag opening, then v (non-empty, quote-free), then `"]` |
| TimeControl.SearchNoneIff | Database_Game_Review.py:120 | `re.search` finds nothing iff the pattern matches at no position |
| TimeControl.SearchIsLeftmost | Database_Game_Review.py:120 | `re.search` returns the group of the leftmost match |
| TimeControl.NoOpenBefore | Database_Game_Review.py:120 | when text holding no `[TimeControl "` is followed by that opening, no match starts inside the text: the opening has `[` only at its start |
| TimeControl.SearchFindsFirstTag | Database_Game_Review.py:120 | when no `[TimeControl "` occurs before a well-formed tag, the search returns that tag's value, whatever other tags (`[Event …]`, `[White …]`) come first |
| TimeControl.ExtractTimeControl | Database_Game_Review.py:118-127 | no tag gives `(None, None)`; every failure is `ValueError`; a value without exactly one `+` raises `ValueError` |
| TimeControl.ExtractTimeControlRoundTrip | Database_Game_Review.py:118-127 | a game whose first `[TimeControl "` tag renders `base+increment` in decimal gives back exactly `(base, increment)`, whatever other tags come before it |
| TimeControl.ExtractReadsParts | Database_Game_Review.py:122-125 | when the value splits into two parseable parts, the result is their `int()` values |
| TimeControl.ExtractRejectsParts | Database_Game_Review.py:122-125 | a value that splits into two parts, one of which `int()` rejects, raises `ValueError` |
| TimeControl.SeparatorPaddedTagRaises | Database_Game_Review.py:118-127 | the first `[TimeControl "` tag of a game, with a base time that starts with U+001C, raises `ValueError`; other tags may come before it |
| TimeControl.NoPlusRaises | Database_Game_Review.py:120-124 | the first `[TimeControl "` tag of a game, with a value without `+`, makes the unpacking raise `ValueError`; other tags may come before it |
| TimeControl.NonIncrementFormsRaise | Database_Game_Review.py:120-124 | the PGN forms `-`, `?` and `1/86400` in the first `[TimeControl "` tag of a game raise `ValueError`, whatever tags come before it |
| ReviewClasses.EmptyCategories | Database_Game_Review_Classes.py:93-101 | a new bucket maps exactly the seven labels, each to an empty list |
| ReviewClasses.GameResults.constructor | Database_Game_Review_Classes.py:30-58 | stores the classification list, and start time, increment and time stamps as the `time_control` triple |
| ReviewClasses.GettersReturnArguments | Database_Game_Review_Classes.py:58-70 | the three getters return the start time, increment and time stamps given to the constructor |
| ReviewClasses.MoveClassification.constructor | Database_Game_Review_Classes.py:92-107 | a valid name gives empty categories, an unset flag and that name |
| ReviewClasses.MoveClassification.New | Database_Game_Review_Classes.py:92-107 | `KeyError` iff the name is not one of the four speed names; otherwise a fresh empty bucket |
| ReviewClasses.MoveClassification.Get | Database_Game_Review_Classes.py:109-113 | returns the list of a known label and raises `KeyError` for any other key |
| ReviewClasses.MoveClassification.Set | Database_Game_Review_Classes.py:115-120 | replaces the list of a known label and nothing else; an unknown key raises `KeyError` and changes nothing |
| ThinkTime.OwnPliesExact | Database_Game_Review.py:36-37 | the selected plies are exactly those with `j % 2 == color`, in increasing order |
| ThinkTime.OwnPliesLength | Database_Game_Review.py:36-37 | the number of own plies is the count of indices of the player's parity |
| ThinkTime.OwnPliesAt | Database_Game_Review.py:36-37 | the k-th own ply is ply 2k + color |
| ThinkTime.OpponentPliesIgnored | Database_Game_Review.py:36-37 | changing the opponent's classifications or clock readings does not change the player's results |
| ThinkTime.ExtractPlayerResults | Database_Game_Review.py:18-49 | the loop computes the player's results exactly as the specification function does, including `IndexError` for a missing clock reading |
| ThinkTime.WorkedExample | Database_Game_Review.py:18-49 | with a 10+2 control and readings 5.0, 3.0, the first player thinks 7.0 and the second 9.0 |
| ThinkTime.PlayerResultsShape | Database_Game_Review.py:36-49 | all three lists have one entry per own ply; entry k holds the classification and reading of ply 2k + color |
| ThinkTime.PlayerResultsFails | Database_Game_Review.py:40 | `IndexError` exactly when some own ply has no clock reading |
| ThinkTime.TurnTimeRecurrence | Database_Game_Review.py:34-43 | the first think time is start + increment − first reading; each later one is previous reading + increment − current reading |
| ThinkTime.TurnTimesTelescope | Database_Game_Review.py:34-43 | the think times sum to start + n · increment − last reading |
| Aggregate.Filtered | Database_Game_Review.py:88-96 | the times filed for a class are at most one per move, and none is zero |
| Aggregate.FilteredMembers | Database_Game_Review.py:88-96 | a time is filed under a class iff some move of that class has that non-zero time |
| Aggregate.FilteredAbsent | Database_Game_Review.py:88-96 | a class no move carries receives nothing |
| Aggregate.FilteredAppend | Database_Game_Review.py:88-96 | filing two runs of moves is filing each in turn, order kept |
| Aggregate.FilteredTimesPrefix | Database_Game_Review.py:89 | turn times past the last classification are never read |
| Aggregate.AccumulateExtends | Database_Game_Review.py:98-104 | the old contents of every list stay a prefix of the new list |
| Aggregate.ExtendEach | Database_Game_Review.py:98-104 | the seven `extend` calls keep the bucket's key set |
| Aggregate.ExtendEachIsAccumulate | Database_Game_Review.py:98-104 | extending each list by its per-class filtered list is the accumulation of the whole game |
| Aggregate.AccumulateTwice | Database_Game_Review.py:98-104 | filing two games one after the other equals filing their concatenation |
| Aggregate.OrderIndependent | Database_Game_Review.py:98-104 | the multiset of times per class does not depend on the order of the games |
| Aggregate.DroppedPly | Database_Game_Review.py:90-96 | a move with an unknown label or a zero time changes no bucket |
| Aggregate.FilePly | Database_Game_Review.py:89-96 | one step of the `if/elif` chain appends the time to the list of the move's class only |
| Aggregate.ClassifyTimeStamps | Database_Game_Review.py:73-105 | `IndexError` (nothing changed) iff there are fewer turn times than moves; otherwise each class list is extended by its filtered times, the flag is set and the name kept |
| Review.WhiteTagHasName | Database_Game_Review.py:10-11 | a game holding the `[White "name"]` tag also holds the name |
| Review.GetPlayerColor | Database_Game_Review.py:8-15 | `KeyError` iff the name occurs nowhere; 0 iff the White tag with that name occurs; 1 iff the name occurs without that tag |
| Review.PlanReview | Database_Game_Review.py:167-177 | a reviewed game carries aligned classification and turn-time lists |
| Review.PlanPlayer | Database_Game_Review.py:176-177 | the player's results have aligned classification and turn-time lists |
| Review.PlanReviewErrors | Database_Game_Review.py:168-176 | a malformed tag raises `ValueError`; a missing tag raises `TypeError`; `KeyError` iff the tag has a non-zero base time and the name occurs nowhere |
| Review.PlanPlayerKeyError | Database_Game_Review.py:176 | after the zero guard, `KeyError` iff the player's name occurs nowhere in the game |
| Review.PlanReviewSkips | Database_Game_Review.py:168-172 | a game is skipped iff its tag parses with base time 0 |
| Review.PlanReviewSpeed | Database_Game_Review.py:168-169 | a reviewed game has a tag, and its speed class is `determine_time_control` of the tag's base time |
| Review.PlanPlayerSpeed | Database_Game_Review.py:177-179 | past the guard, the decision is a review under the speed class computed before the guard |
| Review.ResultListsAlign | Database_Game_Review.py:36-49 | the three extracted lists have equal length |
| Review.Route | Database_Game_Review.py:179-183 | exactly the bucket named by the speed class is extended and flagged; the other three are unchanged |
| Review.ReviewGame | Database_Game_Review.py:167-183 | one pass raises what the decision raises; otherwise it reports whether the game was reviewed, extends and flags only its speed class's bucket, and leaves the other buckets as they were |

## Left out

- Reading the archive file (lines 61-62) is left out. `Archive.ExtractGames` takes the file's content as a string.
- The engine review `Single_Game_Review.Game_Review` (line 175) is not part of this model. Its result is the `GameResults` argument of `ReviewGame`, so the exceptions it can raise itself (from the chess library, the engine process or its own code) are not among the errors `ReviewGame` reports.
- `ReviewClasses.GameResults` keeps only `classification_list` and `time_control`. The other fields (moves, scores, best moves, review list, Elo estimates, accuracies, centipawn losses) come from the engine, and the pipeline never reads them.
- `display_and_save_player_results` (lines 130-152) is left out: printing, NumPy averages and the CSV files are output only.
- The loop over all games is left out, together with the `total_games` counter and the progress prints (lines 159-173). `ReviewGame` models one pass of that loop. An exception it reports ends the script in the source. `Aggregate.AccumulateTwice` states what consecutive passes add up to.
- `MoveClassification.__repr__` is left out because it only formats a string.
- Clock readings and think times are `real`: there is no floating-point rounding and no NaN. The truthiness test `and time` becomes `time != 0.0`.
- `int()` is modelled on ASCII digits only: an optional sign, digits with single underscores between them, and the whitespace `int()` skips around them. Non-ASCII Unicode digits are not modelled.
- TimeControl.ParseIntShowNat: holds for every natural number, while CPython (from 3.10.7 and 3.11 on) makes `int()` raise `ValueError` on a decimal string of more than 4300 digits; the model has no digit limit.
- TimeControl.ExtractTimeControl: parts of more than 4300 digits are read as numbers, where CPython raises `ValueError` for them (the same digit limit).
- TimeControl.ExtractReadsParts: the same digit limit is not modelled, so a part of more than 4300 digits counts as parseable.
- TimeControl.ExtractTimeControlRoundTrip: the same digit limit is not modelled, so the round trip is stated for numbers of any length.
- Python list aliasing is not modelled. The `categories` lists are values that the model replaces, which gives the same observable result because nothing else holds them.
- ReviewClasses.MoveClassification.constructor: requires one of the four names. The `KeyError` raised for any other name is modelled by `MoveClassification.New`.
- Aggregate.ExtendEach: the seven `extend` calls are one map update, as no call can fail between them once the loop has finished.
- The other PGN `TimeControl` forms (`-`, `?`, sandclock `*n`, multi-period `a/b:c`) are modelled only as the `ValueError` that unpacking raises. They are not parsed into a meaning.
- ArchiveRecords.ExtractGamesOfRecords: stated for games joined by one line break each. Exported archives usually put an empty line between games (`"\n\n"`); that join is not proved here.
- Concurrency: the scripts are single-threaded.
