# Fuzzy file-name matcher: a verified model

This project models `FileSearch`, the fuzzy file-name matcher in `FuzzyMatch.cs`. The class ranks the entries of a project
by how well their paths match a typed search expression. It has three parts, one Dafny module each, on top
of a small module for characters:

- `Text` (`text.dfy`) holds the character classes and string operations the source takes from .NET:
  `ToLower`, `Char.IsLower`/`IsUpper`, and the whitespace split used to strip the expression.
- `Scoring` (`scoring.dfy`) models `CalculateScore`. It scores one alignment, given as the matcher's
  index buffer. Only the entries before the first non-positive entry are read. Each one read earns
  sequential, camel-case, separator, file-name and first-letter bonuses. The leading-letter and
  unmatched-letter penalties are clamped to be non-positive. A candidate ending in `cpp` earns 3 points.
  The method is proved equal to the function `Score`, and the properties are proved about `Score`.
- `Matching` (`matching.dfy`) models `FuzzyMatch` as the source writes it, over arrays:
  - A cursor walks the pattern. For each cursor, every start position of the candidate is tried.
  - From each start, a contiguous case-insensitive run is recorded into one shared buffer, which is
    cleared only once per cursor.
  - Runs of two or more characters are scored, and the best strictly positive score is kept.
  - The cursor then jumps past the kept run, or moves on by one.
  - Every kept best refers to the same buffer object. The reported indices are therefore the final
    buffer, once for each kept cursor.

  The methods are proved against specification functions: `ScanStarts` for one cursor's scan, and
  `Walk`/`Align` for the cursor loop. `TotalScore` and `MatchedIndices` are what the caller receives.
- `Ranking` (`ranking.dfy`) models `MatchScoreComparer.Compare` and `ApplyFileFilterExperimental`.
  - Entries are objects whose match score the filter overwrites in place.
  - An empty expression passes the list through.
  - Otherwise the whitespace is stripped and the token is polled before each entry. Each entry reached
    before a cancellation request is scored.
  - Entries with a positive score are tagged and kept. The kept list is then sorted with the comparer.

A reader might expect a fuzzy matcher to test for a subsequence and the ranking to keep equal scores in input
order. The code does neither, and the model follows the code:

- The matcher is not a subsequence test. Each cursor looks for a contiguous run. Runs of different cursors
  need not appear in candidate order, and the reported indices repeat the shared buffer. Nothing
  about subsequences or increasing indices is claimed.
- `List.Sort` is not stable. Only a permutation ordered by the comparer is claimed.
- `CalculateScore` reads `str[str.Length - 3]` without a check. This is a precondition here: `|str| >= 3`
  for `CalculateScore`, and for `FuzzyMatch` the exact condition under which it is never called on a short
  candidate (`CppCheckInBounds`).
- A buffer entry of 0 ends the scan, so a match at candidate index 0 earns nothing and stops the
  scoring. This is how the code behaves, and the model keeps it.

## Model

| member | source | states |
|---|---|---|
| Text.IsLower | FuzzyMatch.cs:53 | a lower-case letter has its capital 32 code points below it |
| Text.IsUpper | FuzzyMatch.cs:53 | a capital is never lower-case, and its lower-case letter lies 32 code points above it |
| Text.IsWhiteSpace | FuzzyMatch.cs:180 | a whitespace character is never a letter |
| Text.ToLower | FuzzyMatch.cs:98-99 | each capital becomes the lower-case letter 32 code points above it, every other character is unchanged, and no result is upper-case |
| Text.Fold | FuzzyMatch.cs:98-99 | lower-casing keeps the length and lower-cases position by position |
| Text.StripWhitespace | FuzzyMatch.cs:180 | the stripped expression is no longer than the input and holds no whitespace |
| Text.StripKeepsOtherCharacters | FuzzyMatch.cs:180 | stripping removes every whitespace character and keeps each other character as often as it occurs |
| Text.StripConcat | FuzzyMatch.cs:180 | the pieces between whitespace are joined in their original order (stripping distributes over concatenation) |
| Text.StripKeepsCleanText | FuzzyMatch.cs:180 | an expression without whitespace is passed on unchanged |
| Text.StripIdempotent | FuzzyMatch.cs:180 | stripping twice is stripping once |
| Scoring.Min | FuzzyMatch.cs:81 | Math.Min is a lower bound of both arguments and equals one of them |
| Scoring.CppBonus | FuzzyMatch.cs:22-26 | the bonus is 3 exactly when the candidate ends in "cpp", and 0 otherwise |
| Scoring.Scanned | FuzzyMatch.cs:32-36 | every entry before the scanned count is positive, and the entry at the count (if any) is not |
| Scoring.IsSeparator | FuzzyMatch.cs:56-57 | no separator neighbour is a letter, and both path separators are separator neighbours |
| Scoring.FilenameMatches | FuzzyMatch.cs:62-76 | matches_in_filename counts at most one per entry read |
| Scoring.FilenameMatchesCounts | FuzzyMatch.cs:62-76 | matches_in_filename is 0 exactly when no read entry lies in the file name, and equals the number read exactly when all do |
| Scoring.FirstInFilename | FuzzyMatch.cs:62-67 | a non-zero first_match_in_filename is one of the read entries and lies in the file name |
| Scoring.NeighbourBonus | FuzzyMatch.cs:47-60 | camel and separator bonuses lie in 0..45 and are 0 exactly when neither the camel nor the separator condition holds |
| Scoring.FilenameBonuses | FuzzyMatch.cs:62-77 | 0 exactly for a match before the file name, 15+25 exactly for a match on its first letter, at most 40 |
| Scoring.EntryBonus | FuzzyMatch.cs:38-77 | one entry earns between 0 and 20+25+20+15+25 = 105 points |
| Scoring.BonusSum | FuzzyMatch.cs:32-78 | the bonuses of k entries lie between 0 and 105·k |
| Scoring.FirstInFilenameIsFirst | FuzzyMatch.cs:62-67 | first_match_in_filename is 0 exactly when no read entry lies in the file name, otherwise the earliest that does |
| Scoring.LeadingPenalty | FuzzyMatch.cs:80-81 | the leading-letter term is never positive and is at most -2 per letter before the first file-name match |
| Scoring.UnmatchedPenalty | FuzzyMatch.cs:83-85 | the unmatched-letter term is never positive and is at most -1 per unmatched file-name letter |
| Scoring.Score | FuzzyMatch.cs:8-88 | a score is at most the cpp bonus plus 105 per scanned entry |
| Scoring.ScoreLowerBound | FuzzyMatch.cs:80-85 | a score is at least the cpp bonus less 3 points per file-name letter |
| Scoring.CalculateScore | FuzzyMatch.cs:8-88 | the loop returns Score of the candidate, file-name start and buffer; pattern, pattern_index and str_index do not affect it |
| Scoring.PrefixDeterminesTerms | FuzzyMatch.cs:32-77 | bonus sum, file-name count and first file-name match depend only on the entries read |
| Scoring.ScoreDeterminedByScannedPrefix | FuzzyMatch.cs:32-36 | two buffers with the same scanned prefix score the same, whatever stale entries follow |
| Scoring.ScoreStopsAtNonPositive | FuzzyMatch.cs:34-36 | cutting the buffer at a non-positive entry does not change the score |
| Scoring.BonusSumSameNeighbourhood | FuzzyMatch.cs:47-60 | the bonuses depend only on the characters at and before each read entry |
| Scoring.CppSuffixAddsThree | FuzzyMatch.cs:22-26 | a candidate ending in "cpp" scores exactly 3 more than one differing only in its unread last three characters |
| Matching.RunLength | FuzzyMatch.cs:118-129 | a run stays inside both strings and, when it ends inside both, ends on a mismatch |
| Matching.RunCharactersAgree | FuzzyMatch.cs:118-120 | the characters a run covers agree pairwise: pattern_lower[p+i] == str_lower[s+i] |
| Matching.Recorded | FuzzyMatch.cs:118-120 | recording a run writes s+i into slot i for every covered i and leaves the other slots as they were |
| Matching.RecordRun | FuzzyMatch.cs:115-129 | the innermost loop returns the position where the run stops and leaves the run recorded over the old buffer |
| Matching.CppCheckInBounds | FuzzyMatch.cs:23 | CalculateScore's unchecked read of the last three characters, reached through the call at :133 only for a run of 2 or more, is safe for a one-character pattern and for a candidate shorter than 2 characters |
| Matching.StartScore | FuzzyMatch.cs:133 | the score CalculateScore gives a start, on the buffer as earlier starts left it, is at most 3 plus 105 per pattern character |
| Matching.Buffers | FuzzyMatch.cs:107-129 | the buffer a cursor's scan leaves has the pattern's length and holds only 0 or indices inside the candidate |
| Matching.Select | FuzzyMatch.cs:131-139 | the kept best is never negative; when positive, it came with the length of a run of at least 2 |
| Matching.SelectKeepsMaximum | FuzzyMatch.cs:131-139 | every start with a run of at least 2 scores at most the kept best |
| Matching.SelectKeepsItsIndex | FuzzyMatch.cs:131-139 | something is kept exactly when the best is positive; it is then the score and run length of a start with a run of at least 2 |
| Matching.SelectKeepsEarliest | FuzzyMatch.cs:134-138 | only a strictly greater score replaces the best, so every earlier eligible start scores strictly less (ties keep the earliest) |
| Matching.ScanStarts | FuzzyMatch.cs:106-143 | a cursor's scan keeps a best that is never negative; when positive, its run has at least 2 characters and stays inside the pattern |
| Matching.BestRun | FuzzyMatch.cs:98-143 | a cursor's scan of the lower-cased strings leaves a buffer of the pattern's length holding 0 or candidate indices, a non-negative best and, when positive, a run of at least 2 inside the pattern |
| Matching.ScanKeepsMaximum | FuzzyMatch.cs:113-143 | every start of the cursor with a run of at least 2 scores at most the scan's best |
| Matching.ScanKeepsItsStart | FuzzyMatch.cs:113-143 | the scan keeps a start exactly when its best is positive, and then best and match_length are that start's score and run length |
| Matching.ScanKeepsEarliest | FuzzyMatch.cs:134-138 | an eligible start before the kept one scores strictly less than the kept best |
| Matching.NoLongRunKeepsNothing | FuzzyMatch.cs:131 | a cursor without any run of 2 or more characters keeps nothing |
| Matching.Table | FuzzyMatch.cs:105-143 | every cursor's scan keeps a non-negative best and, when positive, a run of at least 2 inside the pattern |
| Matching.Next | FuzzyMatch.cs:145-148 | the cursor moves forward, by at least 2 after a kept run, and never past pattern.Length |
| Matching.Stops | FuzzyMatch.cs:105-149 | the cursors the loop stops at are strictly increasing, start at 0 and number at most pattern.Length |
| Matching.Walk | FuzzyMatch.cs:105-149 | the cursor loop keeps scores and buffer of the pattern's length; Stops, WalkScores and WalkBuffer pin down which cursors it visits, the slot each fills and the buffer it leaves |
| Matching.Align | FuzzyMatch.cs:105-149 | the loop's outcome from zeroed scores and buffer has the pattern's length; AlignScores and WalkBuffer give its scores and its buffer |
| Matching.WalkScores | FuzzyMatch.cs:105-149 | the loop leaves each stopped-at cursor's best in its slot and every other slot as it was |
| Matching.AlignScores | FuzzyMatch.cs:105-149 | the final scores are each visited cursor's best and 0 for the positions jumped over |
| Matching.WalkBuffer | FuzzyMatch.cs:107-149 | the final shared buffer is the one the last visited cursor's scan left |
| Matching.ScoresOf | FuzzyMatch.cs:90-94 | the m_Score fields of the PatternMatch entries, position by position |
| Matching.Collected | FuzzyMatch.cs:151-158 | the indices appended are the buffer's length times the number of positive scores |
| Matching.TotalScore | FuzzyMatch.cs:151-158 | what FuzzyMatch adds to out_score is never negative |
| Matching.MatchedIndices | FuzzyMatch.cs:151-158 | FuzzyMatch appends pattern.Length indices for each positive final score |
| Matching.PositiveSum | FuzzyMatch.cs:151-158 | the added score is never negative |
| Matching.PositiveSumPositive | FuzzyMatch.cs:151-158 | the sum of positive parts is positive exactly when some part is |
| Matching.TotalScorePositive | FuzzyMatch.cs:151-160 | FuzzyMatch adds a positive score exactly when some visited cursor kept a run |
| Matching.NoLongRunNoScore | FuzzyMatch.cs:131 | without any run of 2 or more characters, FuzzyMatch adds no score and no indices |
| Matching.SingleCharacterPatternNeverMatches | FuzzyMatch.cs:131 | a one-character pattern adds no score and no indices, so from out_score 0 FuzzyMatch returns false |
| Matching.CollectedRepeats | FuzzyMatch.cs:151-158 | the appended indices are the shared buffer once per positive score |
| Matching.MatchedIndicesShape | FuzzyMatch.cs:137-156 | out_matches grows by pattern.Length indices per kept cursor, all copies of the last visited cursor's buffer, each 0 or inside the candidate |
| Matching.ScanCursor | FuzzyMatch.cs:113-143 | the loop over start positions leaves the cursor's scan in the buffer, its slot and match_length, touching no other slot |
| Matching.TryStart | FuzzyMatch.cs:115-142 | one start position records its run and replaces the cursor's best only with a strictly greater score of a run of at least 2 |
| Matching.VisitCursor | FuzzyMatch.cs:106-143 | one pass of the cursor loop clears the buffer, resets the slot and leaves the cursor's scan; every positive slot still refers to the shared buffer |
| Matching.WalkCursors | FuzzyMatch.cs:105-149 | the cursor loop ends with the scores and buffer of Walk, every positive slot referring to the shared buffer |
| Matching.FuzzyMatch | FuzzyMatch.cs:96-161 | out_score grows by TotalScore, out_matches by MatchedIndices, and the result is out_score > 0 |
| Matching.AddPositive | FuzzyMatch.cs:151-158 | the last loop adds each positive score and appends the shared buffer once for each |
| Ranking.Entry.SetMatchScore | FuzzyMatch.cs:193 | the entry's match score becomes the given score |
| Ranking.CompareTo | FuzzyMatch.cs:167 | Int32.CompareTo is -1, 0 or 1 as the receiver is below, equal to or above the argument |
| Ranking.Compare | FuzzyMatch.cs:165-168 | lhs comes first (negative) exactly when its score is higher, and they are equal exactly when the scores are |
| Ranking.CompareIsTotalPreorder | FuzzyMatch.cs:163-169 | swapping the operands flips the sign, and "not after" is transitive |
| Ranking.SortedByScoreDescends | FuzzyMatch.cs:198 | a list ordered by the comparer has non-increasing match scores |
| Ranking.InsertionKeepsOrder | FuzzyMatch.cs:198 | inserting an entry between those not after it and those after it keeps the list ordered |
| Ranking.InsertByScore | FuzzyMatch.cs:198 | insertion adds the entry once and keeps the list ordered by the comparer |
| Ranking.SortByScore | FuzzyMatch.cs:198 | List.Sort returns a permutation of its input ordered by the comparer |
| Ranking.FileScore | FuzzyMatch.cs:187-189 | the score the filter computes for an entry is never negative |
| Ranking.Kept | FuzzyMatch.cs:182-195 | the entries the filter keeps are never more than the input |
| Ranking.Retained | FuzzyMatch.cs:191-195 | the entries with a positive score are never more than the input |
| Ranking.RetainedCount | FuzzyMatch.cs:191-195 | an entry is retained as often as it occurs when its score is positive, and never otherwise |
| Ranking.KeptCount | FuzzyMatch.cs:182-195 | an entry is kept as often as it occurs in the input when its FuzzyMatch score is positive, otherwise never; an input without repeats gives a result without repeats |
| Ranking.BlankExpressionKeepsNothing | FuzzyMatch.cs:180-195 | a non-empty expression made only of whitespace keeps no entry |
| Ranking.Reached | FuzzyMatch.cs:184-185 | the filter scores exactly the entries before the first poll that sees the request |
| Ranking.ScoreFile | FuzzyMatch.cs:187-189 | one entry's score is FuzzyMatch of the expression against its path from 0, with the file name starting at Path.Length - Name.Length |
| Ranking.ScoreFiles | FuzzyMatch.cs:182-196 | the loop over entries stops at the first request; otherwise it returns the positive-score entries in input order, and each entry reached with a positive score is tagged with it |
| Ranking.ApplyFileFilterExperimental | FuzzyMatch.cs:172-201 | an empty expression returns the input list and touches no entry; otherwise the call is cancelled exactly when a request comes before the last entry, only entries reached before that get their score, and a completed call returns a permutation of the positive-score entries ordered by the comparer |

## Left out

- Unicode: `ToLower`, `Char.IsLower`, `Char.IsUpper` and `Char.IsWhiteSpace` are modelled on ASCII letters and the
  Latin-1 whitespace characters. The culture-dependent Unicode tables are not modelled.
- Cancellation: `ThrowIfCancellationRequested` and the `OperationCanceledException` are modelled as the `Cancelled`
  outcome. The token is modelled as the entry by which cancellation has been requested, because a token stays cancelled
  once it is.
- SortByScore: `List.Sort` is an unstable introsort. The model inserts entries one at a time and claims only what the
  sort promises, a permutation ordered by the comparer. Which order equal scores end in is not modelled.
- ApplyFileFilterExperimental: the order of entries with equal scores is not stated, for the same reason.
- 32-bit arithmetic: scores, lengths and indices are unbounded integers. The buffer is cleared only once per
  cursor, so a kept score can also count the stale tail of an earlier, longer run. The total can therefore grow with
  the square of the expression length. It can pass `Int32.MaxValue` on an expression of some tens of thousands of
  characters, where C# wraps silently. That wrap-around is not modelled.
- UTF-16: strings are modelled as sequences of Unicode code points, while a C# string is a sequence of UTF-16 code
  units. For a path holding a character outside the Basic Multilingual Plane, the lengths, the file-name start
  `Path.Length - Name.Length`, the stored indices and the unmatched-letter penalty count code units, which the model
  cannot represent. Such paths are outside this model.
- `ProjectScanner.SEntry` is not part of this model beyond its path, name and match score. `SetMatchScore` is
  modelled as a single field write. The entry is taken to be a reference type, so the write reaches the entry in
  the input list and in the result. If `SEntry` is a struct, the call in the `foreach` changes only a copy, and the
  sort then sees the old scores. That case is not modelled.
- Out-of-range accesses: the read of `str[str.Length - 3]` on a candidate shorter than 3 characters is a precondition,
  not a modelled exception. The same holds for null strings and lists.
- The `matched` result and the index list of each per-entry `FuzzyMatch` call in the filter are computed and dropped,
  as the source drops them.
- The attribution comments at the head of the file carry no behaviour.
