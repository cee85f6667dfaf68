/** The ranking filter (FileSearch.ApplyFileFilterExperimental) and its
    comparer (FileSearch.MatchScoreComparer).

    The candidate list holds references to entries of the project scanner.
    An entry is abstracted to its path, its file name and a match score that
    the filter overwrites in place. */
module Ranking {
  import opened Text
  import opened Matching

  /** ProjectScanner.SEntry, reduced to what the filter uses. */
  class Entry {
    const path: string
    const name: string
    var matchScore: int

    constructor (path: string, name: string)
      ensures this.path == path && this.name == name && matchScore == 0
    {
      this.path := path;
      this.name := name;
      matchScore := 0;
    }

    /** SEntry.SetMatchScore: a single field write. */
    method SetMatchScore(score: int)
      modifies this
      ensures matchScore == score
    {
      matchScore := score;
    }
  }

  /** Int32.CompareTo: -1, 0 or 1 as a is below, equal to or above b. */
  function CompareTo(a: int, b: int): (c: int)
    ensures c == -1 <==> a < b
    ensures c == 0 <==> a == b
    ensures c == 1 <==> a > b
  {
    if a < b then -1 else if a == b then 0 else 1
  }

  /** MatchScoreComparer.Compare: the operands are swapped, so the entry with
      the higher score comes first. */
  function Compare(lhs: Entry, rhs: Entry): (c: int)
    reads lhs, rhs
    ensures c < 0 <==> lhs.matchScore > rhs.matchScore
    ensures c == 0 <==> lhs.matchScore == rhs.matchScore
    ensures c > 0 <==> lhs.matchScore < rhs.matchScore
  {
    CompareTo(rhs.matchScore, lhs.matchScore)
  }

  /** The comparer is a total preorder, as List.Sort requires of it: swapping
      the operands flips the sign, and "not after" is transitive. */
  lemma CompareIsTotalPreorder(a: Entry, b: Entry, c: Entry)
    ensures Compare(a, b) == -Compare(b, a)
    ensures Compare(a, b) <= 0 && Compare(b, c) <= 0 ==> Compare(a, c) <= 0
  {
  }

  /** Every entry comes no later than the ones after it, by the comparer. */
  predicate SortedByScore(entries: seq<Entry>)
    reads set e | e in entries
  {
    forall i, j :: 0 <= i < j < |entries| ==> Compare(entries[i], entries[j]) <= 0
  }

  /** A list ordered by the comparer is ordered by non-increasing score. */
  lemma SortedByScoreDescends(entries: seq<Entry>, i: nat, j: nat)
    requires SortedByScore(entries)
    requires i <= j < |entries|
    ensures entries[i].matchScore >= entries[j].matchScore
  {
    if i < j {
      assert Compare(entries[i], entries[j]) <= 0;
    }
  }

  /** Inserts e after every entry that does not come after it. */
  method InsertByScore(sorted: seq<Entry>, e: Entry) returns (r: seq<Entry>)
    requires SortedByScore(sorted)
    ensures multiset(r) == multiset(sorted) + multiset{e}
    ensures SortedByScore(r)
  {
    var k := 0;
    while k < |sorted| && Compare(sorted[k], e) <= 0
      invariant k <= |sorted|
      invariant forall j :: 0 <= j < k ==> Compare(sorted[j], e) <= 0
    {
      k := k + 1;
    }
    if k < |sorted| {
      forall j | k <= j < |sorted|
        ensures Compare(e, sorted[j]) < 0
      {
        assert Compare(sorted[k], sorted[j]) <= 0 || j == k;
      }
    }
    InsertionKeepsOrder(sorted, e, k);
    r := sorted[..k] + [e] + sorted[k..];
    assert sorted == sorted[..k] + sorted[k..];
  }

  /** Putting e at k keeps a sorted list sorted when everything before k
      comes no later than e and everything from k on comes after it. */
  lemma InsertionKeepsOrder(sorted: seq<Entry>, e: Entry, k: nat)
    requires SortedByScore(sorted) && k <= |sorted|
    requires forall j :: 0 <= j < k ==> Compare(sorted[j], e) <= 0
    requires forall j :: k <= j < |sorted| ==> Compare(e, sorted[j]) < 0
    ensures SortedByScore(sorted[..k] + [e] + sorted[k..])
  {
    var r := sorted[..k] + [e] + sorted[k..];
    forall i, j | 0 <= i < j < |r|
      ensures Compare(r[i], r[j]) <= 0
    {
      if j < k {
        assert r[i] == sorted[i] && r[j] == sorted[j];
      } else if j == k {
        assert r[i] == sorted[i];
      } else if i < k {
        assert r[i] == sorted[i] && r[j] == sorted[j - 1];
      } else if i == k {
        assert r[j] == sorted[j - 1];
      } else {
        assert r[i] == sorted[i - 1] && r[j] == sorted[j - 1];
      }
    }
  }

  /** List.Sort with the comparer. Only what the sort promises is modelled:
      the output is a permutation of the input ordered by the comparer. */
  method SortByScore(entries: seq<Entry>) returns (sorted: seq<Entry>)
    ensures multiset(sorted) == multiset(entries)
    ensures SortedByScore(sorted)
  {
    sorted := [];
    for i := 0 to |entries|
      invariant multiset(sorted) == multiset(entries[..i])
      invariant SortedByScore(sorted)
    {
      assert entries[..i + 1] == entries[..i] + [entries[i]];
      sorted := InsertByScore(sorted, entries[i]);
    }
    assert entries[..|entries|] == entries;
  }

  /** The score the filter computes for an entry: FuzzyMatch of the
      expression against the entry's path from a zero score, with the file
      name starting at Path.Length - Name.Length. */
  function FileScore(expression: string, e: Entry): (score: int)
    ensures score >= 0
  {
    TotalScore(expression, e.path, |e.path| - |e.name|)
  }

  /** The entries of files whose score in scores is positive, in input
      order. */
  function Retained(files: seq<Entry>, scores: map<Entry, int>): (r: seq<Entry>)
    requires forall i :: 0 <= i < |files| ==> files[i] in scores
    ensures |r| <= |files|
  {
    if files == [] then []
    else
      var last := files[|files| - 1];
      Retained(files[..|files| - 1], scores) + (if scores[last] > 0 then [last] else [])
  }

  /** A non-empty sequence holds its prefix and its last element. */
  lemma MultisetOfLast<T>(s: seq<T>)
    requires s != []
    ensures multiset(s) == multiset(s[..|s| - 1]) + multiset{s[|s| - 1]}
  {
    assert s == s[..|s| - 1] + [s[|s| - 1]];
  }

  /** An entry is retained as often as it occurs in the input when its score
      is positive, and never otherwise. (An entry outside the input occurs
      zero times in it.) */
  lemma {:induction false} RetainedCount(files: seq<Entry>, scores: map<Entry, int>, e: Entry)
    requires forall i :: 0 <= i < |files| ==> files[i] in scores
    ensures multiset(Retained(files, scores))[e]
            == if e in scores && scores[e] > 0 then multiset(files)[e] else 0
  {
    if files != [] {
      var init, last := files[..|files| - 1], files[|files| - 1];
      RetainedCount(init, scores, e);
      MultisetOfLast(files);
      var tail := if scores[last] > 0 then [last] else [];
      assert Retained(files, scores) == Retained(init, scores) + tail;
      assert multiset(Retained(files, scores)) == multiset(Retained(init, scores)) + multiset(tail);
    }
  }

  /** The score FuzzyMatch gives each entry of files. */
  function ScoreMap(expression: string, files: seq<Entry>): (m: map<Entry, int>)
    ensures forall i :: 0 <= i < |files| ==> files[i] in m
  {
    map e | e in files :: FileScore(expression, e)
  }

  /** The entries the filter keeps, in input order: those whose score is
      positive. */
  function Kept(expression: string, files: seq<Entry>): (r: seq<Entry>)
    ensures |r| <= |files|
  {
    Retained(files, ScoreMap(expression, files))
  }

  /** An entry is kept as often as it occurs in the input when its score is
      positive, and never otherwise; so an input without repeats gives a
      result without repeats. */
  lemma KeptCount(expression: string, files: seq<Entry>, e: Entry)
    ensures multiset(Kept(expression, files))[e]
            == if FileScore(expression, e) > 0 then multiset(files)[e] else 0
  {
    RetainedCount(files, ScoreMap(expression, files), e);
  }

  /** Nothing is retained when no score is positive. */
  lemma {:induction false} NothingRetained(files: seq<Entry>, scores: map<Entry, int>)
    requires forall i :: 0 <= i < |files| ==> files[i] in scores && scores[files[i]] <= 0
    ensures Retained(files, scores) == []
  {
    if files != [] {
      NothingRetained(files[..|files| - 1], scores);
    }
  }

  /** An expression made of whitespace only reaches the matcher as the empty
      pattern, which keeps nothing. */
  lemma BlankExpressionKeepsNothing(expression: string, files: seq<Entry>)
    requires StripWhitespace(expression) == []
    ensures Kept(StripWhitespace(expression), files) == []
  {
    var scores := ScoreMap([], files);
    forall i | 0 <= i < |files|
      ensures scores[files[i]] <= 0
    {
      assert Align([], files[i].path, |files[i].path| - |files[i].name|).scores == [];
    }
    NothingRetained(files, scores);
  }

  /** The cancellation token, as the filter sees it. Once requested,
      cancellation stays requested, so the token is either never cancelled
      during the call or cancelled by the time entry k is reached. */
  datatype CancellationToken = NotRequested | RequestedBy(k: nat)

  /** token.IsCancellationRequested when entry i is reached. */
  predicate IsCancellationRequested(token: CancellationToken, i: nat)
  {
    token.RequestedBy? && token.k <= i
  }

  /** How many of n entries the filter scores before it sees the request. */
  function Reached(token: CancellationToken, n: nat): (r: nat)
    ensures r <= n
    ensures forall i :: 0 <= i < r ==> !IsCancellationRequested(token, i)
    ensures r < n ==> IsCancellationRequested(token, r)
  {
    if token.RequestedBy? && token.k < n then token.k else n
  }

  /** The outcome of the filter: the ranked list, or the cancellation that
      the source raises as OperationCanceledException. */
  datatype Outcome = Completed(entries: seq<Entry>) | Cancelled

  /** The call of FuzzyMatch on one entry, from a zero score and an empty
      index list; the indices it reports are dropped. */
  method ScoreFile(expression: string, file: Entry) returns (score: int)
    requires CppCheckInBounds(Fold(expression), Fold(file.path))
    ensures score == FileScore(expression, file)
  {
    var matches: seq<int> := [];
    var matched;
    matched, score, matches := FuzzyMatch(expression, file.path, 0, matches, |file.path| - |file.name|);
  }

  /** The loop over the entries of ApplyFileFilterExperimental: before each
      entry the token is polled; an entry with a positive score gets that
      score and is appended to the result. Stops at the first request. The
      score of every entry is given as a ghost map. */
  method ScoreFiles(stripped: string, inputFiles: seq<Entry>, token: CancellationToken,
                    ghost scores: map<Entry, int>)
    returns (result: seq<Entry>, cancelled: bool)
    requires forall i :: 0 <= i < Reached(token, |inputFiles|) ==>
               CppCheckInBounds(Fold(stripped), Fold(inputFiles[i].path))
    requires forall i :: 0 <= i < |inputFiles| ==> inputFiles[i] in scores
    requires forall e {:trigger FileScore(stripped, e)} :: e in inputFiles ==> scores[e] == FileScore(stripped, e)
    modifies set e | e in inputFiles
    ensures cancelled <==> Reached(token, |inputFiles|) < |inputFiles|
    ensures !cancelled ==> result == Retained(inputFiles, scores)
    ensures forall e :: e in inputFiles ==>
              e.matchScore == if e in inputFiles[..Reached(token, |inputFiles|)] && scores[e] > 0
                              then scores[e] else old(e.matchScore)
  {
    result := [];
    ghost var stop := Reached(token, |inputFiles|);

    for i := 0 to |inputFiles|
      invariant i <= stop
      invariant result == Retained(inputFiles[..i], scores)
      invariant forall e :: e in inputFiles ==>
                  e.matchScore == if e in inputFiles[..i] && scores[e] > 0 then scores[e] else old(e.matchScore)
    {
      if IsCancellationRequested(token, i) {
        assert stop == i;
        return result, true;
      }
      var file := inputFiles[i];
      assert inputFiles[..i + 1] == inputFiles[..i] + [file];

      var score := ScoreFile(stripped, file);
      if score > 0 {
        file.SetMatchScore(score);
        result := result + [file];
      }
    }
    assert inputFiles[..|inputFiles|] == inputFiles;
    assert stop == |inputFiles|;
    cancelled := false;
  }

  /** FileSearch.ApplyFileFilterExperimental. */
  method ApplyFileFilterExperimental(expression: string, inputFiles: seq<Entry>, token: CancellationToken)
    returns (outcome: Outcome)
    requires expression != [] ==>
               forall i :: 0 <= i < Reached(token, |inputFiles|) ==>
                 CppCheckInBounds(Fold(StripWhitespace(expression)), Fold(inputFiles[i].path))
    modifies set e | e in inputFiles
    ensures expression == [] ==> outcome == Completed(inputFiles)
    ensures var stop := if expression == [] then 0 else Reached(token, |inputFiles|);
            forall e :: e in inputFiles ==>
              e.matchScore == if e in inputFiles[..stop] && FileScore(StripWhitespace(expression), e) > 0
                              then FileScore(StripWhitespace(expression), e) else old(e.matchScore)
    ensures expression != [] ==>
              (outcome.Cancelled? <==> Reached(token, |inputFiles|) < |inputFiles|)
    ensures outcome.Completed? && expression != [] ==>
              multiset(outcome.entries) == multiset(Kept(StripWhitespace(expression), inputFiles))
              && SortedByScore(outcome.entries)
  {
    if |expression| == 0 {
      return Completed(inputFiles);
    }

    var stripped := StripWhitespace(expression);
    var result, cancelled := ScoreFiles(stripped, inputFiles, token, ScoreMap(stripped, inputFiles));
    if cancelled {
      return Cancelled;
    }

    var sorted := SortByScore(result);
    return Completed(sorted);
  }
}
