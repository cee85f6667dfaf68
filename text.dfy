/** Character classes and string folding used by the file-name matcher.
    The .NET Unicode rules of Char.IsLower, Char.IsUpper, String.ToLower and
    Char.IsWhiteSpace are replaced by their ASCII / Latin-1 cases. */
module Text {

  /** Char.IsLower, restricted to ASCII. */
  predicate IsLower(c: char): (r: bool)
    ensures r ==> 'A' as int <= c as int - 32 <= 'Z' as int
  {
    'a' <= c <= 'z'
  }

  /** Char.IsUpper, restricted to ASCII. */
  predicate IsUpper(c: char): (r: bool)
    ensures r ==> !IsLower(c)
    ensures r ==> c as int + 32 <= 'z' as int && IsLower((c as int + 32) as char)
  {
    'A' <= c <= 'Z'
  }

  /** Per-character lower-casing: upper-case letters map to their lower-case
      counterpart, every other character is left alone. */
  function ToLower(c: char): (r: char)
    ensures !IsUpper(r)
    ensures IsUpper(c) ==> IsLower(r) && r as int == c as int + 32
    ensures !IsUpper(c) ==> r == c
  {
    if IsUpper(c) then (c as int + 32) as char else c
  }

  /** String.ToLower as a length-preserving, position-wise fold. */
  function Fold(s: string): (r: string)
    ensures |r| == |s|
    ensures forall i {:trigger r[i]} :: 0 <= i < |s| ==> r[i] == ToLower(s[i])
  {
    if s == [] then [] else Fold(s[..|s| - 1]) + [ToLower(s[|s| - 1])]
  }

  /** Char.IsWhiteSpace on the Latin-1 range: space, the controls
      U+0009..U+000D, NEL and NO-BREAK SPACE. */
  predicate IsWhiteSpace(c: char): (r: bool)
    ensures r ==> !IsLower(c) && !IsUpper(c)
  {
    c == ' ' || '\t' <= c <= '\r' || c == '\U{85}' || c == '\U{A0}'
  }

  /** The effect of splitting on whitespace with empty entries removed and
      joining the pieces with "": every whitespace character disappears and the
      other characters keep their order. */
  function StripWhitespace(s: string): (r: string)
    ensures |r| <= |s|
    ensures forall i :: 0 <= i < |r| ==> !IsWhiteSpace(r[i])
  {
    if s == [] then []
    else if IsWhiteSpace(s[0]) then StripWhitespace(s[1..])
      else [s[0]] + StripWhitespace(s[1..])
  }

  /** Stripping removes every whitespace character and keeps every other
      character as often as it occurs. */
  lemma {:induction false} StripKeepsOtherCharacters(s: string, c: char)
    ensures multiset(StripWhitespace(s))[c] == if IsWhiteSpace(c) then 0 else multiset(s)[c]
  {
    if s != [] {
      assert s == [s[0]] + s[1..];
      StripKeepsOtherCharacters(s[1..], c);
    }
  }

  /** Stripping distributes over concatenation, so the pieces between
      whitespace runs are joined in their original order. */
  lemma {:induction false} StripConcat(a: string, b: string)
    ensures StripWhitespace(a + b) == StripWhitespace(a) + StripWhitespace(b)
  {
    if a == [] {
      assert a + b == b;
    } else {
      assert (a + b)[0] == a[0];
      assert (a + b)[1..] == a[1..] + b;
      StripConcat(a[1..], b);
    }
  }

  /** An expression without whitespace reaches the matcher unchanged. */
  lemma {:induction false} StripKeepsCleanText(s: string)
    requires forall i :: 0 <= i < |s| ==> !IsWhiteSpace(s[i])
    ensures StripWhitespace(s) == s
  {
    if s != [] {
      StripKeepsCleanText(s[1..]);
    }
  }

  /** Stripping twice is stripping once. */
  lemma StripIdempotent(s: string)
    ensures StripWhitespace(StripWhitespace(s)) == StripWhitespace(s)
  {
    StripKeepsCleanText(StripWhitespace(s));
  }
}
