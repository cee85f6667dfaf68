/** The matcher (FileSearch.FuzzyMatch).

    A cursor walks the pattern. For each cursor position every start position
    of the candidate is tried: from there a contiguous run of case-folded
    characters is extended and recorded in a shared index buffer. A run of at
    least two characters is scored by CalculateScore on that buffer, and the
    best strictly positive score for the cursor is kept. The cursor then jumps
    over the best run, or moves on by one. The per-cursor bests are summed.

    What the code does, and the model with it:
    - the buffer is cleared once per cursor, not once per start, so stale
      entries of earlier runs stay in it and are scored;
    - every kept best refers to the same buffer object, so the reported
      indices are the final buffer, once per kept cursor;
    - runs of different cursors need not appear in candidate order. */
module Matching {
  import opened Text
  import opened Scoring

  /** The length of the contiguous run of equal characters of pl from p and of
      sl from s. */
  function RunLength(pl: string, sl: string, p: nat, s: nat): (n: nat)
    requires p <= |pl| && s <= |sl|
    ensures p + n <= |pl| && s + n <= |sl|
    ensures p + n < |pl| && s + n < |sl| ==> pl[p + n] != sl[s + n]
    decreases |pl| - p
  {
    if p < |pl| && s < |sl| && pl[p] == sl[s] then 1 + RunLength(pl, sl, p + 1, s + 1) else 0
  }

  /** The characters a run covers agree pairwise: pl[p + i] == sl[s + i] for
      every i below the run's length. */
  lemma {:induction false} RunCharactersAgree(pl: string, sl: string, p: nat, s: nat)
    requires p <= |pl| && s <= |sl|
    ensures pl[p..p + RunLength(pl, sl, p, s)] == sl[s..s + RunLength(pl, sl, p, s)]
    decreases |pl| - p
  {
    var n := RunLength(pl, sl, p, s);
    if n > 0 {
      RunCharactersAgree(pl, sl, p + 1, s + 1);
      assert pl[p..p + n] == [pl[p]] + pl[p + 1..p + n];
      assert sl[s..s + n] == [sl[s]] + sl[s + 1..s + n];
    }
  }

  /** A freshly allocated or cleared buffer. */
  function Zeros(n: nat): (z: seq<int>)
    ensures |z| == n
    ensures forall i :: 0 <= i < n ==> z[i] == 0
  {
    if n == 0 then [] else Zeros(n - 1) + [0]
  }

  /** Every buffer slot is cleared or holds an index into the candidate. */
  predicate InRange(bound: int, buffer: seq<int>)
  {
    forall i :: 0 <= i < |buffer| ==> buffer[i] == 0 || 0 < buffer[i] < bound
  }

  /** The buffer after a run of length n from candidate position s has been
      recorded over it: the first n slots are overwritten, the rest keep what
      they held. */
  function Recorded(buffer: seq<int>, s: int, n: nat): (r: seq<int>)
    requires n <= |buffer|
    ensures |r| == |buffer|
    ensures forall i :: 0 <= i < n ==> r[i] == s + i
    ensures forall i {:trigger r[i]} :: n <= i < |buffer| ==> r[i] == buffer[i]
  {
    if n == 0 then buffer else Recorded(buffer, s, n - 1)[n - 1 := s + n - 1]
  }

  lemma InRangeIsWellIndexed(str: string, buffer: seq<int>)
    requires InRange(|str|, buffer)
    ensures WellIndexed(str, buffer)
  {
  }

  /** A buffer that holds the run in its first n slots and the old content
      elsewhere is the recorded buffer. */
  lemma RecordedAt(buffer: seq<int>, after: seq<int>, s: int, n: nat)
    requires n <= |buffer| == |after|
    requires forall j :: 0 <= j < n ==> after[j] == s + j
    requires forall j :: n <= j < |buffer| ==> after[j] == buffer[j]
    ensures after == Recorded(buffer, s, n)
  {
  }

  /** The condition, on the lower-cased pattern pl and candidate sl, under
      which FuzzyMatch never reads before the start of the candidate:
      CalculateScore inspects the last three characters, and it is only called
      for runs of two or more characters. */
  predicate CppCheckInBounds(pl: string, sl: string): (r: bool)
    ensures |pl| < 2 || |sl| < 2 ==> r
  {
    |sl| >= 3 ||
    forall p, s :: 0 <= p < |pl| && 0 <= s < |sl| ==> RunLength(pl, sl, p, s) < 2
  }

  /** The state of one cursor's scan: the shared buffer, the best score kept so
      far and the length of the run that earned it. */
  datatype Scan = Scan(buffer: seq<int>, best: int, length: nat)

  /** The shared buffer after cursor p has tried start positions 0 .. n-1 of
      the lower-cased candidate sl: cleared, then every run recorded over it in
      turn, whatever its score. */
  function Buffers(pl: string, sl: string, p: nat, n: nat): (b: seq<int>)
    requires p < |pl| && n <= |sl|
    ensures |b| == |pl| && InRange(|sl|, b)
  {
    if n == 0 then Zeros(|pl|)
    else Recorded(Buffers(pl, sl, p, n - 1), n - 1, RunLength(pl, sl, p, n - 1))
  }

  /** The run lengths of cursor p at start positions 0 .. n-1. */
  function Runs(pl: string, sl: string, p: nat, n: nat): (r: seq<nat>)
    requires p < |pl| && n <= |sl|
    ensures |r| == n
    ensures forall s {:trigger r[s]} :: 0 <= s < n ==> r[s] == RunLength(pl, sl, p, s)
  {
    if n == 0 then [] else Runs(pl, sl, p, n - 1) + [RunLength(pl, sl, p, n - 1)]
  }

  /** The score CalculateScore gives start s of cursor p, on the buffer as the
      earlier starts left it with the run from s recorded over it. */
  function StartScore(str: string, filenameStart: int, pl: string, sl: string, p: nat, s: nat): (score: int)
    requires p < |pl| && s < |sl| == |str|
    ensures score <= 3 + MaxEntryBonus * |pl|
  {
    var m := Recorded(Buffers(pl, sl, p, s), s, RunLength(pl, sl, p, s));
    assert MaxEntryBonus * Scanned(m) <= MaxEntryBonus * |pl| by {
      assert Scanned(m) <= |m| == |pl|;
    }
    Score(str, filenameStart, m)
  }

  /** The scores of cursor p at start positions 0 .. n-1. */
  function StartScores(str: string, filenameStart: int, pl: string, sl: string, p: nat, n: nat): (r: seq<int>)
    requires p < |pl| && n <= |sl| == |str|
    ensures |r| == n
    ensures forall s {:trigger r[s]} :: 0 <= s < n ==> r[s] == StartScore(str, filenameStart, pl, sl, p, s)
  {
    seq(n, s requires 0 <= s < n => StartScore(str, filenameStart, pl, sl, p, s))
  }

  /** The best score kept so far and the length of the run that earned it. */
  datatype Choice = Choice(best: int, length: nat)

  /** The best kept after candidates 0 .. n-1 have been tried, starting from
      nothing: candidate i replaces the kept one when its run has two or more
      characters and its score is strictly greater. Whatever is kept is a
      positive score with the length of one of the runs. */
  function Select(scores: seq<int>, runs: seq<nat>, n: nat): (c: Choice)
    requires n <= |scores| && n <= |runs|
    ensures c.best >= 0
    ensures c.best > 0 ==> 2 <= c.length && exists i :: 0 <= i < n && runs[i] == c.length
  {
    if n == 0 then Choice(0, 0)
    else
      var prev := Select(scores, runs, n - 1);
      if runs[n - 1] > 1 && scores[n - 1] > prev.best then Choice(scores[n - 1], runs[n - 1]) else prev
  }

  /** Cursor p's scan after start positions 0 .. n-1 have been tried. Whatever
      it keeps is a positive score earned by a run of at least two characters
      that stays inside the pattern. */
  function ScanStarts(str: string, filenameStart: int, pl: string, sl: string, p: nat, n: nat): (st: Scan)
    requires p < |pl| && n <= |sl| == |str|
    ensures |st.buffer| == |pl| && InRange(|sl|, st.buffer)
    ensures st.best >= 0
    ensures st.best > 0 ==> 2 <= st.length && p + st.length <= |pl|
  {
    var c := Select(StartScores(str, filenameStart, pl, sl, p, |sl|), Runs(pl, sl, p, |sl|), n);
    Scan(Buffers(pl, sl, p, n), c.best, c.length)
  }

  /** The completed scan for cursor p of the pattern against the candidate,
      both lower-cased, scored by CalculateScore. */
  function BestRun(pattern: string, str: string, filenameStart: int, p: nat): (st: Scan)
    requires p < |pattern|
    ensures |st.buffer| == |pattern| && InRange(|str|, st.buffer)
    ensures st.best >= 0
    ensures st.best > 0 ==> 2 <= st.length && p + st.length <= |pattern|
  {
    ScanStarts(str, filenameStart, Fold(pattern), Fold(str), p, |str|)
  }

  /** What a completed scan guarantees at every cursor p of a table of scans,
      one per pattern position: a best that is never negative and, when
      positive, was earned by a run of two or more characters that stays
      inside the pattern; and a buffer of the pattern's length. */
  predicate Hops(table: seq<Scan>)
  {
    forall p :: 0 <= p < |table| ==>
      table[p].best >= 0 && |table[p].buffer| == |table|
      && (table[p].best > 0 ==> 2 <= table[p].length && p + table[p].length <= |table|)
  }

  /** The completed scan of every cursor, whether or not the loop stops there. */
  function Table(pattern: string, str: string, filenameStart: int): (t: seq<Scan>)
    ensures |t| == |pattern| && Hops(t)
    ensures forall p {:trigger t[p]} :: 0 <= p < |pattern| ==> t[p] == BestRun(pattern, str, filenameStart, p)
  {
    seq(|pattern|, p requires 0 <= p < |pattern| => BestRun(pattern, str, filenameStart, p))
  }

  /** Where the cursor goes after p: past the best run when one was kept,
      otherwise one step on. It always moves forward, by at least two after a
      kept run, and never beyond the end of the pattern. */
  function Next(table: seq<Scan>, p: nat): (q: nat)
    requires p < |table| && Hops(table)
    ensures p < q <= |table|
    ensures table[p].best > 0 ==> q >= p + 2
  {
    if table[p].best > 0 then p + table[p].length else p + 1
  }

  /** The outcome of the cursor loop: the score kept for each pattern position
      (0 where none was kept or the cursor never stopped) and the final content
      of the shared buffer. */
  datatype Alignment = Alignment(scores: seq<int>, buffer: seq<int>)

  /** The cursor loop from cursor p on, given every cursor's completed scan:
      each cursor it stops at records its best and leaves its scan's buffer. */
  function Walk(table: seq<Scan>, p: nat, scores: seq<int>, buffer: seq<int>): (a: Alignment)
    requires p <= |table| && Hops(table) && |scores| == |table| && |buffer| == |table|
    ensures |a.scores| == |table| && |a.buffer| == |table|
    decreases |table| - p
  {
    if p == |table| then Alignment(scores, buffer)
    else Walk(table, Next(table, p), scores[p := table[p].best], table[p].buffer)
  }

  lemma WalkStep(table: seq<Scan>, p: nat, scores: seq<int>, buffer: seq<int>)
    requires p < |table| && Hops(table) && |scores| == |table| && |buffer| == |table|
    ensures Walk(table, p, scores, buffer) == Walk(table, Next(table, p), scores[p := table[p].best], table[p].buffer)
  {
  }

  /** The cursors the loop stops at from p on, in increasing order. */
  function Stops(table: seq<Scan>, p: nat): (vs: seq<nat>)
    requires p <= |table| && Hops(table)
    ensures |vs| <= |table| - p
    ensures forall i :: 0 <= i < |vs| ==> p <= vs[i] < |table|
    ensures forall i, j :: 0 <= i < j < |vs| ==> vs[i] < vs[j]
    ensures p < |table| ==> vs != [] && vs[0] == p
    decreases |table| - p
  {
    if p == |table| then [] else [p] + Stops(table, Next(table, p))
  }

  /** The outcome of FuzzyMatch's loop over cursors. */
  function Align(pattern: string, str: string, filenameStart: int): (a: Alignment)
    ensures |a.scores| == |pattern| && |a.buffer| == |pattern|
  {
    Walk(Table(pattern, str, filenameStart), 0, Zeros(|pattern|), Zeros(|pattern|))
  }

  /** The cursors FuzzyMatch's loop stops at. */
  function Visited(pattern: string, str: string, filenameStart: int): seq<nat>
  {
    Stops(Table(pattern, str, filenameStart), 0)
  }

  /** The sum of the positive scores. */
  function PositiveSum(scores: seq<int>): (t: int)
    ensures t >= 0
  {
    if scores == [] then 0
    else
      var last := scores[|scores| - 1];
      PositiveSum(scores[..|scores| - 1]) + (if last > 0 then last else 0)
  }

  /** How many scores are positive. */
  function PositiveCount(scores: seq<int>): (c: nat)
    ensures c <= |scores|
  {
    if scores == [] then 0
    else PositiveCount(scores[..|scores| - 1]) + (if scores[|scores| - 1] > 0 then 1 else 0)
  }

  /** The buffer appended once for every positive score, in pattern order. */
  function Collected(scores: seq<int>, buffer: seq<int>): (r: seq<int>)
    ensures |r| == |buffer| * PositiveCount(scores)
  {
    if scores == [] then []
    else Collected(scores[..|scores| - 1], buffer) + (if scores[|scores| - 1] > 0 then buffer else [])
  }

  /** k copies of the buffer. */
  function Repeat(buffer: seq<int>, k: nat): (r: seq<int>)
    ensures |r| == |buffer| * k
  {
    if k == 0 then [] else Repeat(buffer, k - 1) + buffer
  }

  /** What FuzzyMatch adds to the caller's score. */
  function TotalScore(pattern: string, str: string, filenameStart: int): (t: int)
    ensures t >= 0
  {
    PositiveSum(Align(pattern, str, filenameStart).scores)
  }

  /** What FuzzyMatch appends to the caller's index list. */
  function MatchedIndices(pattern: string, str: string, filenameStart: int): (r: seq<int>)
    ensures |r| == |pattern| * PositiveCount(Align(pattern, str, filenameStart).scores)
  {
    var a := Align(pattern, str, filenameStart);
    Collected(a.scores, a.buffer)
  }

  /** Every candidate whose run has two or more characters scores at most the
      best that is kept. */
  lemma {:induction false} SelectKeepsMaximum(scores: seq<int>, runs: seq<nat>, n: nat, s: nat)
    requires s < n <= |scores| && n <= |runs|
    requires runs[s] > 1
    ensures scores[s] <= Select(scores, runs, n).best
    decreases n
  {
    if s < n - 1 {
      SelectKeepsMaximum(scores, runs, n - 1, s);
    }
  }

  /** The candidate whose score is kept after candidates 0 .. n-1, or -1 when
      nothing is kept. */
  function KeptIndex(scores: seq<int>, runs: seq<nat>, n: nat): (k: int)
    requires n <= |scores| && n <= |runs|
    ensures -1 <= k < n
  {
    if n == 0 then -1
    else if runs[n - 1] > 1 && scores[n - 1] > Select(scores, runs, n - 1).best then n - 1
    else KeptIndex(scores, runs, n - 1)
  }

  /** Something is kept exactly when the best is positive; then it is the
      score of the kept candidate, whose run has two or more characters and
      gives the kept length. Otherwise nothing at all is kept. */
  lemma {:induction false} SelectKeepsItsIndex(scores: seq<int>, runs: seq<nat>, n: nat)
    requires n <= |scores| && n <= |runs|
    ensures var c := Select(scores, runs, n);
            var k := KeptIndex(scores, runs, n);
            (k >= 0 <==> c.best > 0)
            && (k < 0 ==> c == Choice(0, 0))
            && (k >= 0 ==> runs[k] > 1 && scores[k] == c.best && c.length == runs[k])
  {
    if n > 0 {
      SelectKeepsItsIndex(scores, runs, n - 1);
    }
  }

  /** Ties keep the earliest candidate: every candidate before the kept one
      whose run has two or more characters scores strictly less than the best,
      because a score only replaces a strictly smaller one. */
  lemma {:induction false} SelectKeepsEarliest(scores: seq<int>, runs: seq<nat>, n: nat, t: nat)
    requires n <= |scores| && n <= |runs|
    requires t < KeptIndex(scores, runs, n) && runs[t] > 1
    ensures scores[t] < Select(scores, runs, n).best
    decreases n
  {
    if runs[n - 1] > 1 && scores[n - 1] > Select(scores, runs, n - 1).best {
      SelectKeepsMaximum(scores, runs, n - 1, t);
    } else {
      SelectKeepsEarliest(scores, runs, n - 1, t);
    }
  }

  /** Every start of cursor p whose run has two or more characters scores at
      most the best the scan keeps. */
  lemma ScanKeepsMaximum(str: string, filenameStart: int, pl: string, sl: string, p: nat, n: nat, s: nat)
    requires p < |pl| && s < n <= |sl| == |str|
    requires RunLength(pl, sl, p, s) > 1
    ensures StartScore(str, filenameStart, pl, sl, p, s) <= ScanStarts(str, filenameStart, pl, sl, p, n).best
  {
    SelectKeepsMaximum(StartScores(str, filenameStart, pl, sl, p, |sl|), Runs(pl, sl, p, |sl|), n, s);
  }

  /** The start whose run earned the best cursor p keeps after starts
      0 .. n-1, or -1 when nothing is kept. */
  function KeptStart(str: string, filenameStart: int, pl: string, sl: string, p: nat, n: nat): (k: int)
    requires p < |pl| && n <= |sl| == |str|
  {
    KeptIndex(StartScores(str, filenameStart, pl, sl, p, |sl|), Runs(pl, sl, p, |sl|), n)
  }

  /** The scan keeps something exactly when its best is positive; then that
      best is the score of the kept start, whose run has two or more
      characters and gives the kept length. */
  lemma ScanKeepsItsStart(str: string, filenameStart: int, pl: string, sl: string, p: nat, n: nat)
    requires p < |pl| && n <= |sl| == |str|
    ensures var st := ScanStarts(str, filenameStart, pl, sl, p, n);
            var k := KeptStart(str, filenameStart, pl, sl, p, n);
            -1 <= k < n
            && (k >= 0 <==> st.best > 0)
            && (k < 0 ==> st.best == 0 && st.length == 0)
            && (k >= 0 ==> RunLength(pl, sl, p, k) > 1
                           && StartScore(str, filenameStart, pl, sl, p, k) == st.best
                           && st.length == RunLength(pl, sl, p, k))
  {
    SelectKeepsItsIndex(StartScores(str, filenameStart, pl, sl, p, |sl|), Runs(pl, sl, p, |sl|), n);
  }

  /** Ties keep the earliest start: a start before the kept one whose run has
      two or more characters scores strictly less than the kept best. */
  lemma ScanKeepsEarliest(str: string, filenameStart: int, pl: string, sl: string, p: nat, n: nat, t: nat)
    requires p < |pl| && n <= |sl| == |str|
    requires t < KeptStart(str, filenameStart, pl, sl, p, n) && RunLength(pl, sl, p, t) > 1
    ensures StartScore(str, filenameStart, pl, sl, p, t) < ScanStarts(str, filenameStart, pl, sl, p, n).best
  {
    SelectKeepsEarliest(StartScores(str, filenameStart, pl, sl, p, |sl|), Runs(pl, sl, p, |sl|), n, t);
  }

  /** When no start gives a run of two or more characters, the cursor keeps
      nothing. */
  lemma NoLongRunKeepsNothing(pattern: string, str: string, filenameStart: int, p: nat)
    requires p < |pattern|
    requires forall s :: 0 <= s < |str| ==> RunLength(Fold(pattern), Fold(str), p, s) <= 1
    ensures BestRun(pattern, str, filenameStart, p).best == 0
  {
    ScanKeepsItsStart(str, filenameStart, Fold(pattern), Fold(str), p, |str|);
  }

  /** The walk from cursor p gives each cursor it stops at that cursor's best
      and leaves every other score alone. */
  lemma {:induction false} WalkScores(table: seq<Scan>, p: nat, scores: seq<int>, buffer: seq<int>, q: nat)
    requires p <= |table| && Hops(table) && |scores| == |table| && |buffer| == |table|
    requires q < |table|
    ensures Walk(table, p, scores, buffer).scores[q]
            == if q in Stops(table, p) then table[q].best else scores[q]
    decreases |table| - p
  {
    if p < |table| {
      var next := Next(table, p);
      WalkScores(table, next, scores[p := table[p].best], table[p].buffer, q);
      assert Stops(table, p) == [p] + Stops(table, next);
      assert p !in Stops(table, next);
    }
  }

  /** The scores FuzzyMatch ends up with: the best of every cursor the loop
      stops at, 0 for the positions it jumps over. */
  lemma AlignScores(pattern: string, str: string, filenameStart: int, q: nat)
    requires q < |pattern|
    ensures Align(pattern, str, filenameStart).scores[q]
            == if q in Visited(pattern, str, filenameStart) then BestRun(pattern, str, filenameStart, q).best
               else 0
  {
    WalkScores(Table(pattern, str, filenameStart), 0, Zeros(|pattern|), Zeros(|pattern|), q);
  }

  /** The walk's final buffer is the one the scan of its last stop left. */
  lemma {:induction false} WalkBuffer(table: seq<Scan>, p: nat, scores: seq<int>, buffer: seq<int>)
    requires p < |table| && Hops(table) && |scores| == |table| && |buffer| == |table|
    ensures var vs := Stops(table, p);
            Walk(table, p, scores, buffer).buffer == table[vs[|vs| - 1]].buffer
    decreases |table| - p
  {
    var next := Next(table, p);
    assert Stops(table, p) == [p] + Stops(table, next);
    if next < |table| {
      WalkBuffer(table, next, scores[p := table[p].best], table[p].buffer);
    }
  }

  /** A sum of positive parts is positive exactly when some part is. */
  lemma {:induction false} PositiveSumPositive(scores: seq<int>)
    ensures PositiveSum(scores) > 0 <==> exists i :: 0 <= i < |scores| && scores[i] > 0
  {
    if scores != [] {
      var init := scores[..|scores| - 1];
      PositiveSumPositive(init);
      if exists i :: 0 <= i < |init| && init[i] > 0 {
        var i :| 0 <= i < |init| && init[i] > 0;
        assert scores[i] > 0;
      }
      if exists i :: 0 <= i < |scores| && scores[i] > 0 {
        var i :| 0 <= i < |scores| && scores[i] > 0;
        if i < |init| {
          assert init[i] > 0;
        }
      }
    }
  }

  /** FuzzyMatch adds something to the score exactly when some cursor it stops
      at kept a run. */
  lemma TotalScorePositive(pattern: string, str: string, filenameStart: int)
    ensures TotalScore(pattern, str, filenameStart) > 0
            <==> exists q :: q in Visited(pattern, str, filenameStart)
                             && BestRun(pattern, str, filenameStart, q).best > 0
  {
    var scores := Align(pattern, str, filenameStart).scores;
    var vs := Visited(pattern, str, filenameStart);
    PositiveSumPositive(scores);
    if exists i :: 0 <= i < |scores| && scores[i] > 0 {
      var i :| 0 <= i < |scores| && scores[i] > 0;
      AlignScores(pattern, str, filenameStart, i);
    }
    if exists q :: q in vs && BestRun(pattern, str, filenameStart, q).best > 0 {
      var q :| q in vs && BestRun(pattern, str, filenameStart, q).best > 0;
      AlignScores(pattern, str, filenameStart, q);
      assert scores[q] > 0;
    }
  }

  /** With no run of two or more characters anywhere, FuzzyMatch adds nothing;
      in particular a one-character pattern never matches. */
  lemma NoLongRunNoScore(pattern: string, str: string, filenameStart: int)
    requires forall p, s :: 0 <= p < |pattern| && 0 <= s < |str| ==> RunLength(Fold(pattern), Fold(str), p, s) <= 1
    ensures TotalScore(pattern, str, filenameStart) == 0
    ensures MatchedIndices(pattern, str, filenameStart) == []
  {
    var a := Align(pattern, str, filenameStart);
    forall q | 0 <= q < |pattern|
      ensures a.scores[q] <= 0
    {
      NoLongRunKeepsNothing(pattern, str, filenameStart, q);
      AlignScores(pattern, str, filenameStart, q);
    }
    PositiveSumPositive(a.scores);
    NothingCollected(a.scores, a.buffer);
  }

  /** Nothing is collected when no score is positive. */
  lemma {:induction false} NothingCollected(scores: seq<int>, buffer: seq<int>)
    requires forall i :: 0 <= i < |scores| ==> scores[i] <= 0
    ensures Collected(scores, buffer) == []
  {
    if scores != [] {
      NothingCollected(scores[..|scores| - 1], buffer);
    }
  }

  lemma SingleCharacterPatternNeverMatches(pattern: string, str: string, filenameStart: int)
    requires |pattern| == 1
    ensures TotalScore(pattern, str, filenameStart) == 0
    ensures MatchedIndices(pattern, str, filenameStart) == []
  {
    forall p, s | 0 <= p < |pattern| && 0 <= s < |str|
      ensures RunLength(Fold(pattern), Fold(str), p, s) <= 1
    {
    }
    NoLongRunNoScore(pattern, str, filenameStart);
  }

  /** The collected indices are the buffer repeated once per positive score. */
  lemma {:induction false} CollectedRepeats(scores: seq<int>, buffer: seq<int>)
    ensures Collected(scores, buffer) == Repeat(buffer, PositiveCount(scores))
  {
    if scores != [] {
      CollectedRepeats(scores[..|scores| - 1], buffer);
    }
  }

  /** What FuzzyMatch appends: the final shared buffer, which the scan of the
      last cursor the loop stops at left, pattern.Length indices at a time,
      once per positive score; each index is 0 or a position inside the
      candidate. */
  lemma MatchedIndicesShape(pattern: string, str: string, filenameStart: int)
    ensures var a := Align(pattern, str, filenameStart);
            MatchedIndices(pattern, str, filenameStart) == Repeat(a.buffer, PositiveCount(a.scores))
            && |MatchedIndices(pattern, str, filenameStart)| == |pattern| * PositiveCount(a.scores)
            && InRange(|str|, MatchedIndices(pattern, str, filenameStart))
    ensures |pattern| > 0 ==>
              var vs := Visited(pattern, str, filenameStart);
              Align(pattern, str, filenameStart).buffer == BestRun(pattern, str, filenameStart, vs[|vs| - 1]).buffer
  {
    var a := Align(pattern, str, filenameStart);
    CollectedRepeats(a.scores, a.buffer);
    if |pattern| > 0 {
      var table := Table(pattern, str, filenameStart);
      WalkBuffer(table, 0, Zeros(|pattern|), Zeros(|pattern|));
      var vs := Visited(pattern, str, filenameStart);
      assert a.buffer == BestRun(pattern, str, filenameStart, vs[|vs| - 1]).buffer;
    }
    RepeatInRange(|str|, a.buffer, PositiveCount(a.scores));
  }

  lemma {:induction false} RepeatInRange(bound: int, buffer: seq<int>, k: nat)
    requires InRange(bound, buffer)
    ensures InRange(bound, Repeat(buffer, k))
  {
    if k > 0 {
      RepeatInRange(bound, buffer, k - 1);
      var r := Repeat(buffer, k - 1);
      forall i | 0 <= i < |r + buffer|
        ensures (r + buffer)[i] == 0 || 0 < (r + buffer)[i] < bound
      {
        if i >= |r| {
          assert (r + buffer)[i] == buffer[i - |r|];
        }
      }
    }
  }

  /** One entry of pattern_scores. m_Matches is a reference, so every entry
      that was ever given a run refers to the one shared buffer. */
  datatype PatternMatch = PatternMatch(score: int, matches: array?<int>)

  function ScoresOf(ps: seq<PatternMatch>): (s: seq<int>)
    ensures |s| == |ps|
    ensures forall i {:trigger s[i]} :: 0 <= i < |ps| ==> s[i] == ps[i].score
  {
    if ps == [] then [] else ScoresOf(ps[..|ps| - 1]) + [ps[|ps| - 1].score]
  }

  /** The innermost loop of FuzzyMatch: extend the run of cursor
      patternIndex from candidate position strIndex, writing each matched
      candidate position into the shared buffer. Returns the pattern position
      where the extension stopped. */
  method RecordRun(patternLower: string, strLower: string, patternIndex: nat, strIndex: nat, matches: array<int>)
    returns (searchPatternIndex: nat)
    requires patternIndex < |patternLower| == matches.Length && strIndex < |strLower|
    modifies matches
    ensures searchPatternIndex == patternIndex + RunLength(patternLower, strLower, patternIndex, strIndex)
    ensures matches[..] == Recorded(old(matches[..]), strIndex, searchPatternIndex - patternIndex)
  {
    ghost var previous := matches[..];
    searchPatternIndex := patternIndex;
    var searchStrIndex := strIndex;

    var i := 0;
    while patternLower[searchPatternIndex] == strLower[searchStrIndex]
      invariant searchPatternIndex == patternIndex + i < |patternLower|
      invariant searchStrIndex == strIndex + i < |strLower|
      invariant i + RunLength(patternLower, strLower, searchPatternIndex, searchStrIndex)
                == RunLength(patternLower, strLower, patternIndex, strIndex)
      invariant forall j :: 0 <= j < i ==> matches[j] == strIndex + j
      invariant forall j :: i <= j < matches.Length ==> matches[j] == previous[j]
      decreases |patternLower| - searchPatternIndex
    {
      matches[i] := searchStrIndex;

      searchPatternIndex := patternIndex + i + 1;
      searchStrIndex := strIndex + i + 1;

      if searchPatternIndex >= |patternLower| || searchStrIndex >= |strLower| {
        break;
      }
      i := i + 1;
    }
    RecordedAt(previous, matches[..], strIndex, searchPatternIndex - patternIndex);
  }

  /** Every pattern position that holds a positive score refers to the shared
      buffer. */
  ghost predicate SharesBuffer(patternScores: array<PatternMatch>, matches: array<int>)
    reads patternScores
  {
    forall q :: 0 <= q < patternScores.Length && patternScores[q].score > 0 ==> patternScores[q].matches == matches
  }

  /** The loop over start positions for cursor patternIndex, on a buffer just
      cleared and a score just reset. Leaves the cursor's scan in the buffer
      and in pattern_scores, and returns match_length. */
  method ScanCursor(pattern: string, str: string, patternLower: string, strLower: string,
                    filenameStartIndex: int, patternIndex: nat,
                    patternScores: array<PatternMatch>, matches: array<int>)
    returns (matchLength: nat)
    requires |patternLower| == |pattern| && |strLower| == |str|
    requires CppCheckInBounds(patternLower, strLower)
    requires patternIndex < |pattern| == matches.Length == patternScores.Length
    requires matches[..] == Zeros(|pattern|) && patternScores[patternIndex].score == 0
    modifies matches, patternScores
    ensures Scan(matches[..], patternScores[patternIndex].score, matchLength)
            == ScanStarts(str, filenameStartIndex, patternLower, strLower, patternIndex, |str|)
    ensures forall q :: 0 <= q < |pattern| && q != patternIndex ==> patternScores[q] == old(patternScores[q])
    ensures patternScores[patternIndex].score > 0 ==> patternScores[patternIndex].matches == matches
  {
    ghost var scores := StartScores(str, filenameStartIndex, patternLower, strLower, patternIndex, |str|);
    ghost var runs := Runs(patternLower, strLower, patternIndex, |str|);
    matchLength := 0;

    var strIndex := 0;
    while strIndex < |str|
      invariant strIndex <= |str|
      invariant matches[..] == Buffers(patternLower, strLower, patternIndex, strIndex)
      invariant Choice(patternScores[patternIndex].score, matchLength) == Select(scores, runs, strIndex)
      invariant forall q :: 0 <= q < |pattern| && q != patternIndex ==> patternScores[q] == old(patternScores[q])
      invariant patternScores[patternIndex].score > 0 ==> patternScores[patternIndex].matches == matches
    {
      matchLength := TryStart(pattern, str, patternLower, strLower, filenameStartIndex, patternIndex, strIndex,
                              patternScores, matches, matchLength, scores, runs);
      strIndex := strIndex + 1;
    }
  }

  /** One pass of the loop over start positions: record the run from
      strIndex, score it when it has two or more characters, and keep the
      score when it beats the cursor's best so far. The scores and run
      lengths of every start are given as ghost sequences; only the ones at
      strIndex are used. */
  method TryStart(pattern: string, str: string, patternLower: string, strLower: string,
                  filenameStartIndex: int, patternIndex: nat, strIndex: nat,
                  patternScores: array<PatternMatch>, matches: array<int>, matchLength: nat,
                  ghost scores: seq<int>, ghost runs: seq<nat>)
    returns (newLength: nat)
    requires |patternLower| == |pattern| && |strLower| == |str|
    requires patternIndex < |pattern| == matches.Length == patternScores.Length
    requires strIndex < |str| == |scores| == |runs|
    requires scores[strIndex] == StartScore(str, filenameStartIndex, patternLower, strLower, patternIndex, strIndex)
    requires runs[strIndex] == RunLength(patternLower, strLower, patternIndex, strIndex)
    requires runs[strIndex] > 1 ==> |str| >= 3
    requires matches[..] == Buffers(patternLower, strLower, patternIndex, strIndex)
    requires Choice(patternScores[patternIndex].score, matchLength) == Select(scores, runs, strIndex)
    requires patternScores[patternIndex].score > 0 ==> patternScores[patternIndex].matches == matches
    modifies matches, patternScores
    ensures matches[..] == Buffers(patternLower, strLower, patternIndex, strIndex + 1)
    ensures Choice(patternScores[patternIndex].score, newLength) == Select(scores, runs, strIndex + 1)
    ensures forall q :: 0 <= q < |pattern| && q != patternIndex ==> patternScores[q] == old(patternScores[q])
    ensures patternScores[patternIndex].score > 0 ==> patternScores[patternIndex].matches == matches
  {
    newLength := matchLength;
    ghost var previous := matches[..];
    var searchPatternIndex := RecordRun(patternLower, strLower, patternIndex, strIndex, matches);
    var runLength := searchPatternIndex - patternIndex;
    assert matches[..] == Recorded(previous, strIndex, runLength);

    if runLength > 1 {
      InRangeIsWellIndexed(str, matches[..]);
      var matchScore := CalculateScore(pattern, str, patternIndex, strIndex, filenameStartIndex, matches);
      assert matchScore == scores[strIndex];
      if matchScore > patternScores[patternIndex].score {
        patternScores[patternIndex] := patternScores[patternIndex].(score := matchScore, matches := matches);
        newLength := runLength;
      }
      // Here the source resets the cursor to pattern_start, the value it
      // already holds.
    }
  }

  /** One pass of the loop over cursors, at cursor patternIndex: clear the
      shared buffer, reset the cursor's score and try every start position.
      The cursor's completed scan is given as a ghost value. */
  method VisitCursor(pattern: string, str: string, patternLower: string, strLower: string,
                     filenameStartIndex: int, patternIndex: nat,
                     patternScores: array<PatternMatch>, matches: array<int>, ghost scan: Scan)
    returns (matchLength: nat)
    requires |patternLower| == |pattern| && |strLower| == |str|
    requires CppCheckInBounds(patternLower, strLower)
    requires patternIndex < |pattern| == matches.Length == patternScores.Length
    requires scan == ScanStarts(str, filenameStartIndex, patternLower, strLower, patternIndex, |str|)
    requires SharesBuffer(patternScores, matches)
    modifies matches, patternScores
    ensures matches[..] == scan.buffer && matchLength == scan.length
    ensures ScoresOf(patternScores[..]) == old(ScoresOf(patternScores[..]))[patternIndex := scan.best]
    ensures SharesBuffer(patternScores, matches)
  {
    ghost var before := patternScores[..];
    forall j | 0 <= j < matches.Length {
      matches[j] := 0;
    }
    assert matches[..] == Zeros(|pattern|);
    patternScores[patternIndex] := patternScores[patternIndex].(score := 0);

    matchLength := ScanCursor(pattern, str, patternLower, strLower, filenameStartIndex, patternIndex,
                              patternScores, matches);

    assert ScoresOf(patternScores[..]) == ScoresOf(before)[patternIndex := scan.best];
    forall q | 0 <= q < patternScores.Length && patternScores[q].score > 0
      ensures patternScores[q].matches == matches
    {
      if q != patternIndex {
        assert patternScores[q] == before[q];
      }
    }
  }

  /** The loop over cursors of FuzzyMatch, given every cursor's completed scan
      as a ghost table: each cursor it stops at leaves its scan, then the
      cursor jumps past the kept run or moves on by one. */
  method WalkCursors(pattern: string, str: string, patternLower: string, strLower: string, filenameStartIndex: int,
                     patternScores: array<PatternMatch>, matches: array<int>, ghost table: seq<Scan>)
    requires |patternLower| == |pattern| && |strLower| == |str|
    requires CppCheckInBounds(patternLower, strLower)
    requires |table| == |pattern| == patternScores.Length == matches.Length && Hops(table)
    requires forall p {:trigger ScanStarts(str, filenameStartIndex, patternLower, strLower, p, |str|)} ::
               0 <= p < |pattern| ==> table[p] == ScanStarts(str, filenameStartIndex, patternLower, strLower, p, |str|)
    requires ScoresOf(patternScores[..]) == Zeros(|pattern|) && matches[..] == Zeros(|pattern|)
    modifies patternScores, matches
    ensures ScoresOf(patternScores[..]) == Walk(table, 0, Zeros(|pattern|), Zeros(|pattern|)).scores
    ensures matches[..] == Walk(table, 0, Zeros(|pattern|), Zeros(|pattern|)).buffer
    ensures SharesBuffer(patternScores, matches)
  {
    forall q | 0 <= q < patternScores.Length
      ensures patternScores[q].score == 0
    {
      assert ScoresOf(patternScores[..])[q] == patternScores[..][q].score;
    }
    var patternIndex := 0;
    while patternIndex < |pattern|
      invariant patternIndex <= |pattern|
      invariant SharesBuffer(patternScores, matches)
      invariant Walk(table, patternIndex, ScoresOf(patternScores[..]), matches[..])
                == Walk(table, 0, Zeros(|pattern|), Zeros(|pattern|))
      decreases |pattern| - patternIndex
    {
      WalkStep(table, patternIndex, ScoresOf(patternScores[..]), matches[..]);
      ghost var next := Next(table, patternIndex);
      var matchLength := VisitCursor(pattern, str, patternLower, strLower, filenameStartIndex, patternIndex,
                                     patternScores, matches, table[patternIndex]);
      assert ScoresOf(patternScores[..])[patternIndex] == patternScores[..][patternIndex].score;
      if patternScores[patternIndex].score > 0 {
        patternIndex := patternIndex + matchLength - 1;
      }
      patternIndex := patternIndex + 1;
      assert patternIndex == next;
    }
  }

  /** FileSearch.FuzzyMatch. The ref parameters out_score and out_matches are
      passed in as outScore and outMatches and returned updated. */
  method FuzzyMatch(pattern: string, str: string, outScore: int, outMatches: seq<int>, filenameStartIndex: int)
    returns (matched: bool, newScore: int, newMatches: seq<int>)
    requires CppCheckInBounds(Fold(pattern), Fold(str))
    ensures newScore == outScore + TotalScore(pattern, str, filenameStartIndex)
    ensures newMatches == outMatches + MatchedIndices(pattern, str, filenameStartIndex)
    ensures matched <==> newScore > 0
  {
    var patternLower := Fold(pattern);
    var strLower := Fold(str);

    var patternScores := new PatternMatch[|pattern|](_ => PatternMatch(0, null));
    var matches := new int[|pattern|](_ => 0);
    assert ScoresOf(patternScores[..]) == Zeros(|pattern|) && matches[..] == Zeros(|pattern|);

    // Each cursor's scan is fixed by the inputs; the walk visits some of them.
    ghost var table := Table(pattern, str, filenameStartIndex);
    assert forall p {:trigger ScanStarts(str, filenameStartIndex, patternLower, strLower, p, |str|)} ::
             0 <= p < |pattern| ==> table[p] == ScanStarts(str, filenameStartIndex, patternLower, strLower, p, |str|);
    WalkCursors(pattern, str, patternLower, strLower, filenameStartIndex, patternScores, matches, table);

    newScore, newMatches := AddPositive(patternScores, matches, outScore, outMatches);
    matched := newScore > 0;
  }

  /** The last loop of FuzzyMatch: every entry with a positive score adds its
      score and the content of its buffer, which is the shared one. */
  method AddPositive(patternScores: array<PatternMatch>, matches: array<int>, outScore: int, outMatches: seq<int>)
    returns (newScore: int, newMatches: seq<int>)
    requires SharesBuffer(patternScores, matches)
    ensures newScore == outScore + PositiveSum(ScoresOf(patternScores[..]))
    ensures newMatches == outMatches + Collected(ScoresOf(patternScores[..]), matches[..])
  {
    ghost var scores := ScoresOf(patternScores[..]);
    newScore := outScore;
    newMatches := outMatches;
    for q := 0 to patternScores.Length
      invariant newScore == outScore + PositiveSum(scores[..q])
      invariant newMatches == outMatches + Collected(scores[..q], matches[..])
    {
      assert scores[..q + 1][..q] == scores[..q];
      var entry := patternScores[q];
      if entry.score > 0 {
        newScore := newScore + entry.score;
        newMatches := newMatches + entry.matches[..];
      }
    }
    assert scores[..patternScores.Length] == scores;
  }
}
