/** The score of one alignment (FileSearch.CalculateScore).

    An alignment is the matcher's index buffer: candidate positions, read from
    the front up to the first entry that is not positive. Each entry read earns
    bonuses; the leading-letter and unmatched-letter penalties are applied once
    at the end, and a candidate ending in "cpp" earns 3 points up front. */
module Scoring {
  import opened Text

  const SequentialBonus := 20      // adjacent matches
  const SeparatorBonus := 20       // match right after a separator
  const CamelBonus := 25           // upper-case match after a lower-case letter or slash
  const FirstLetterBonus := 25     // match on the first letter of the file name
  const FilenameBonus := 15        // match inside the file name rather than the directory
  const LeadingLetterPenalty := -2 // per letter of the file name before its first match
  const UnmatchedLetterPenalty := -1 // per letter of the file name left unmatched

  /** The most one buffer entry can earn. */
  const MaxEntryBonus := SequentialBonus + CamelBonus + SeparatorBonus + FilenameBonus + FirstLetterBonus

  /** Math.Min */
  function Min(a: int, b: int): (m: int)
    ensures m <= a && m <= b && (m == a || m == b)
  {
    if a <= b then a else b
  }

  /** The preference for C++ sources: 3 points exactly when the candidate ends
      in the literal "cpp". */
  function CppBonus(str: string): (b: int)
    ensures b == 0 || b == 3
    ensures b == 3 <==> |str| >= 3 && str[|str| - 3..] == "cpp"
  {
    if |str| >= 3 && str[|str| - 3] == 'c' && str[|str| - 2] == 'p' && str[|str| - 1] == 'p'
    then 3 else 0
  }

  /** How many leading entries of the buffer the scorer reads: it stops at the
      first entry that is not positive, so a match at candidate index 0 and a
      cleared slot both end the scan. */
  function Scanned(m: seq<int>): (k: nat)
    ensures k <= |m|
    ensures forall i :: 0 <= i < k ==> m[i] > 0
    ensures k < |m| ==> m[k] <= 0
  {
    ScannedFrom(m, 0)
  }

  /** The first position from i on whose entry is not positive. */
  function ScannedFrom(m: seq<int>, i: nat): (k: nat)
    requires i <= |m|
    ensures i <= k <= |m|
    ensures forall j :: i <= j < k ==> m[j] > 0
    ensures k < |m| ==> m[k] <= 0
    decreases |m| - i
  {
    if i == |m| || m[i] <= 0 then i else ScannedFrom(m, i + 1)
  }

  /** Every entry the scorer reads is an index into the candidate. */
  predicate WellIndexed(str: string, m: seq<int>)
  {
    forall i :: 0 <= i < Scanned(m) ==> m[i] < |str|
  }

  /** The neighbours that earn the separator bonus. None of them is a letter,
      and the two path separators are among them. */
  predicate IsSeparator(c: char): (r: bool)
    ensures r ==> !IsLower(c) && !IsUpper(c)
    ensures c == '\\' || c == '/' ==> r
  {
    c == '_' || c == ' ' || c == '\\' || c == '/'
  }

  /** Camel-case and separator bonuses of a match at idx, from the character
      before it. */
  function NeighbourBonus(str: string, idx: int): (b: int)
    requires 0 < idx < |str|
    ensures 0 <= b <= CamelBonus + SeparatorBonus
    ensures b == 0 <==>
              !IsSeparator(str[idx - 1]) &&
              !((IsLower(str[idx - 1]) || str[idx - 1] == '\\' || str[idx - 1] == '/') && IsUpper(str[idx]))
  {
    var neighbor := str[idx - 1];
    var curr := str[idx];
    (if (IsLower(neighbor) || neighbor == '\\' || neighbor == '/') && IsUpper(curr) then CamelBonus else 0)
    + (if IsSeparator(neighbor) then SeparatorBonus else 0)
  }

  /** File-name and first-letter bonuses of a match at idx. */
  function FilenameBonuses(filenameStart: int, idx: int): (b: int)
    ensures b == 0 <==> idx < filenameStart
    ensures b == FilenameBonus + FirstLetterBonus <==> idx == filenameStart
    ensures 0 <= b <= FilenameBonus + FirstLetterBonus
  {
    if idx >= filenameStart then FilenameBonus + (if idx == filenameStart then FirstLetterBonus else 0)
    else 0
  }

  /** What the entry at position i earns. */
  function EntryBonus(str: string, filenameStart: int, m: seq<int>, i: nat): (b: int)
    requires i < Scanned(m) && WellIndexed(str, m)
    ensures 0 <= b <= MaxEntryBonus
  {
    (if i > 0 && m[i] == m[i - 1] + 1 then SequentialBonus else 0)
    + NeighbourBonus(str, m[i])
    + FilenameBonuses(filenameStart, m[i])
  }

  /** The bonuses of the first k entries. */
  function BonusSum(str: string, filenameStart: int, m: seq<int>, k: nat): (total: int)
    requires k <= Scanned(m) && WellIndexed(str, m)
    ensures 0 <= total <= MaxEntryBonus * k
  {
    if k == 0 then 0
    else BonusSum(str, filenameStart, m, k - 1) + EntryBonus(str, filenameStart, m, k - 1)
  }

  /** How many of the first k entries lie in the file name. */
  function FilenameMatches(filenameStart: int, m: seq<int>, k: nat): (n: nat)
    requires k <= |m|
    ensures n <= k
  {
    if k == 0 then 0
    else FilenameMatches(filenameStart, m, k - 1) + (if m[k - 1] >= filenameStart then 1 else 0)
  }

  /** No entry is counted exactly when none lies in the file name, and every
      entry is counted exactly when all of them do. */
  lemma {:induction false} FilenameMatchesCounts(filenameStart: int, m: seq<int>, k: nat)
    requires k <= |m|
    ensures FilenameMatches(filenameStart, m, k) == 0 <==> forall i :: 0 <= i < k ==> m[i] < filenameStart
    ensures FilenameMatches(filenameStart, m, k) == k <==> forall i :: 0 <= i < k ==> m[i] >= filenameStart
  {
    if k > 0 {
      FilenameMatchesCounts(filenameStart, m, k - 1);
    }
  }

  /** The first of the first k entries that lies in the file name, or 0 when
      none does. */
  function FirstInFilename(filenameStart: int, m: seq<int>, k: nat): (f: int)
    requires k <= Scanned(m)
    ensures f != 0 ==> filenameStart <= f && exists j :: 0 <= j < k && m[j] == f
  {
    if k == 0 then 0
    else
      var f := FirstInFilename(filenameStart, m, k - 1);
      if f == 0 && m[k - 1] >= filenameStart then m[k - 1] else f
  }

  /** FirstInFilename is 0 exactly when no read entry lies in the file name,
      and otherwise the earliest one that does. */
  lemma {:induction false} FirstInFilenameIsFirst(filenameStart: int, m: seq<int>, k: nat)
    requires k <= Scanned(m)
    ensures var f := FirstInFilename(filenameStart, m, k);
            (f == 0 <==> forall i :: 0 <= i < k ==> m[i] < filenameStart)
            && (f != 0 ==> exists j :: 0 <= j < k && f == m[j] && filenameStart <= m[j] &&
                                       forall i :: 0 <= i < j ==> m[i] < filenameStart)
  {
    if k > 0 {
      FirstInFilenameIsFirst(filenameStart, m, k - 1);
    }
  }

  /** -2 per file-name letter before the first match in the file name,
      never positive. */
  function LeadingPenalty(first: int, filenameStart: int): (p: int)
    ensures p <= 0
    ensures p == 0 || p == LeadingLetterPenalty * (first - filenameStart)
    ensures p <= LeadingLetterPenalty * (first - filenameStart)
  {
    Min(LeadingLetterPenalty * (first - filenameStart), 0)
  }

  /** -1 per file-name letter not matched, never positive. */
  function UnmatchedPenalty(length: int, filenameStart: int, inFilename: int): (p: int)
    ensures p <= 0
    ensures p == 0 || p == UnmatchedLetterPenalty * (length - filenameStart - inFilename)
    ensures p <= UnmatchedLetterPenalty * (length - filenameStart - inFilename)
  {
    Min(UnmatchedLetterPenalty * (length - filenameStart - inFilename), 0)
  }

  /** The score CalculateScore returns for the buffer m. */
  function Score(str: string, filenameStart: int, m: seq<int>): (score: int)
    requires WellIndexed(str, m)
    ensures score <= CppBonus(str) + MaxEntryBonus * Scanned(m)
  {
    var k := Scanned(m);
    CppBonus(str)
    + BonusSum(str, filenameStart, m, k)
    + LeadingPenalty(FirstInFilename(filenameStart, m, k), filenameStart)
    + UnmatchedPenalty(|str|, filenameStart, FilenameMatches(filenameStart, m, k))
  }

  /** The penalties cost at most 2 points per file-name letter for the
      leading letters and 1 per unmatched letter, so a score is never below
      the cpp bonus less 3 points per file-name letter. */
  lemma ScoreLowerBound(str: string, filenameStart: int, m: seq<int>)
    requires WellIndexed(str, m) && 0 <= filenameStart <= |str|
    ensures Score(str, filenameStart, m) >= CppBonus(str) - 3 * (|str| - filenameStart)
  {
    var k := Scanned(m);
    FirstInFilenameIsFirst(filenameStart, m, k);
  }

  /** FileSearch.CalculateScore. The pattern, the pattern index and the string
      index are accepted and never read: the result is a function of the
      candidate, the file-name start and the buffer alone. */
  method CalculateScore(pattern: string, str: string, patternIndex: int, strIndex: int,
                        filenameStartIndex: int, matches: array<int>) returns (outScore: int)
    requires |str| >= 3
    requires WellIndexed(str, matches[..])
    ensures outScore == Score(str, filenameStartIndex, matches[..])
  {
    ghost var m := matches[..];
    outScore := 0;

    // A candidate ending in "cpp" gets a small head start.
    if str[|str| - 3] == 'c' && str[|str| - 2] == 'p' && str[|str| - 1] == 'p' {
      outScore := outScore + 3;
    }

    var matchesInFilename := 0;
    var firstMatchInFilename := 0;

    var i := 0;
    while i < matches.Length
      invariant 0 <= i <= Scanned(m)
      invariant outScore == CppBonus(str) + BonusSum(str, filenameStartIndex, m, i)
      invariant matchesInFilename == FilenameMatches(filenameStartIndex, m, i)
      invariant firstMatchInFilename == FirstInFilename(filenameStartIndex, m, i)
    {
      var currIdx := matches[i];
      if currIdx <= 0 {
        break;
      }
      assert i < Scanned(m) && currIdx == m[i] < |str|;
      ghost var before := outScore;

      if i > 0 {
        var prevIdx := matches[i - 1];
        if currIdx == prevIdx + 1 {
          outScore := outScore + SequentialBonus;
        }
      }

      if currIdx > 0 {
        var neighbor := str[currIdx - 1];
        var curr := str[currIdx];
        if (IsLower(neighbor) || neighbor == '\\' || neighbor == '/') && IsUpper(curr) {
          outScore := outScore + CamelBonus;
        }
        var neighborSeparator := neighbor == '_' || neighbor == ' ' || neighbor == '\\' || neighbor == '/';
        if neighborSeparator {
          outScore := outScore + SeparatorBonus;
        }
      }

      if currIdx >= filenameStartIndex {
        if firstMatchInFilename == 0 {
          firstMatchInFilename := currIdx;
        }
        outScore := outScore + FilenameBonus;
        if currIdx == filenameStartIndex {
          outScore := outScore + FirstLetterBonus;
        }
        matchesInFilename := matchesInFilename + 1;
      }
      assert outScore == before + EntryBonus(str, filenameStartIndex, m, i);
      i := i + 1;
    }
    assert i == Scanned(m);
    ghost var bonuses := outScore;

    outScore := outScore + Min(LeadingLetterPenalty * (firstMatchInFilename - filenameStartIndex), 0);
    assert outScore == bonuses + LeadingPenalty(firstMatchInFilename, filenameStartIndex);

    var unmatched := |str| - filenameStartIndex - matchesInFilename;
    outScore := outScore + Min(UnmatchedLetterPenalty * unmatched, 0);
    assert outScore == bonuses + LeadingPenalty(firstMatchInFilename, filenameStartIndex)
                               + UnmatchedPenalty(|str|, filenameStartIndex, matchesInFilename);
  }

  /** The agreement of the first k entries of two buffers fixes the bonus sum,
      the file-name count and the first file-name match over them. */
  lemma {:induction false} PrefixDeterminesTerms(str: string, filenameStart: int, m1: seq<int>, m2: seq<int>, k: nat)
    requires k <= Scanned(m1) && k <= Scanned(m2)
    requires WellIndexed(str, m1) && WellIndexed(str, m2)
    requires m1[..k] == m2[..k]
    ensures BonusSum(str, filenameStart, m1, k) == BonusSum(str, filenameStart, m2, k)
    ensures FilenameMatches(filenameStart, m1, k) == FilenameMatches(filenameStart, m2, k)
    ensures FirstInFilename(filenameStart, m1, k) == FirstInFilename(filenameStart, m2, k)
  {
    if k > 0 {
      assert m1[k - 1] == m1[..k][k - 1] == m2[..k][k - 1] == m2[k - 1];
      assert k >= 2 ==> m1[k - 2] == m1[..k][k - 2] == m2[..k][k - 2] == m2[k - 2];
      assert m1[..k - 1] == m1[..k][..k - 1];
      assert m2[..k - 1] == m2[..k][..k - 1];
      PrefixDeterminesTerms(str, filenameStart, m1, m2, k - 1);
    }
  }

  /** The score reads only the entries before the first non-positive one:
      two buffers with the same scanned prefix score the same, whatever stale
      entries follow. */
  lemma ScoreDeterminedByScannedPrefix(str: string, filenameStart: int, m1: seq<int>, m2: seq<int>)
    requires WellIndexed(str, m1) && WellIndexed(str, m2)
    requires Scanned(m1) == Scanned(m2)
    requires m1[..Scanned(m1)] == m2[..Scanned(m2)]
    ensures Score(str, filenameStart, m1) == Score(str, filenameStart, m2)
  {
    PrefixDeterminesTerms(str, filenameStart, m1, m2, Scanned(m1));
  }

  /** A non-positive entry ends the scan: cutting the buffer there does not
      change the score. */
  lemma ScoreStopsAtNonPositive(str: string, filenameStart: int, m: seq<int>, j: nat)
    requires WellIndexed(str, m)
    requires j < |m| && m[j] <= 0
    ensures WellIndexed(str, m[..j])
    ensures Score(str, filenameStart, m[..j]) == Score(str, filenameStart, m)
  {
    var k := Scanned(m);
    assert k <= j;
    assert m[..j][..k] == m[..k];
    ScoreDeterminedByScannedPrefix(str, filenameStart, m[..j], m);
  }

  /** Candidates that agree on every character the entries read score the
      same bonuses. */
  lemma {:induction false} BonusSumSameNeighbourhood(str1: string, str2: string, filenameStart: int, m: seq<int>, k: nat)
    requires |str1| == |str2|
    requires k <= Scanned(m) && WellIndexed(str1, m)
    requires forall i :: 0 <= i < k ==> str1[m[i] - 1] == str2[m[i] - 1] && str1[m[i]] == str2[m[i]]
    ensures WellIndexed(str2, m)
    ensures BonusSum(str1, filenameStart, m, k) == BonusSum(str2, filenameStart, m, k)
  {
    if k > 0 {
      BonusSumSameNeighbourhood(str1, str2, filenameStart, m, k - 1);
    }
  }

  /** The "cpp" suffix is worth exactly 3 points: a candidate ending in "cpp"
      scores 3 more than one of the same length that differs from it only in
      its last three characters, when no entry reads those characters. */
  lemma CppSuffixAddsThree(cpp: string, other: string, filenameStart: int, m: seq<int>)
    requires |cpp| == |other| >= 3
    requires cpp[..|cpp| - 3] == other[..|other| - 3]
    requires cpp[|cpp| - 3..] == "cpp" && other[|other| - 3..] != "cpp"
    requires WellIndexed(cpp, m)
    requires forall i :: 0 <= i < Scanned(m) ==> m[i] < |cpp| - 3
    ensures WellIndexed(other, m)
    ensures Score(cpp, filenameStart, m) == Score(other, filenameStart, m) + 3
  {
    var n := |cpp| - 3;
    forall i | 0 <= i < Scanned(m)
      ensures cpp[m[i] - 1] == other[m[i] - 1] && cpp[m[i]] == other[m[i]]
    {
      assert cpp[m[i] - 1] == cpp[..n][m[i] - 1];
      assert other[m[i] - 1] == other[..n][m[i] - 1];
      assert cpp[m[i]] == cpp[..n][m[i]];
      assert other[m[i]] == other[..n][m[i]];
    }
    BonusSumSameNeighbourhood(cpp, other, filenameStart, m, Scanned(m));
  }
}
