/**
 * The regular expressions of the question parser, written as explicit
 * scanners instead of calls into a regex engine.
 *
 * The question pattern is `/(\d+[\.\)]|\bQ\s*\d+|\bQuestion\s+\d+)/i`:
 * unanchored, case-insensitive, no `g` flag. A search tries every start
 * position from left to right and, at each position, the three alternatives
 * in order with greedy repetitions; the first success wins. `test` asks
 * whether a match exists and `replace(pattern, '')` removes the first match.
 *
 * Each scanner is proved against a declarative description of the words the
 * alternatives accept (`MatchesAt`): the match a search reports starts at the
 * leftmost position where some word of the pattern starts, and ends at the
 * farthest end of such a word there. With greedy repetitions that is where
 * the first successful alternative stops, because at one position at most
 * one alternative can succeed.
 */
module QuestionPattern {
  import opened Strings
  import opened Wrappers

  /** End of the run of digits that starts at `i` (greedy `\d*`). */
  function DigitRunEnd(s: string, i: nat): (j: nat)
    requires i <= |s|
    ensures i <= j <= |s|
    ensures forall k :: i <= k < j ==> IsDigit(s[k])
    ensures j < |s| ==> !IsDigit(s[j])
    decreases |s| - i
  {
    if i < |s| && IsDigit(s[i]) then DigitRunEnd(s, i + 1) else i
  }

  /** End of the run of white space that starts at `i` (greedy `\s*`). */
  function SpaceRunEnd(s: string, i: nat): (j: nat)
    requires i <= |s|
    ensures i <= j <= |s|
    ensures forall k :: i <= k < j ==> IsSpace(s[k])
    ensures j < |s| ==> !IsSpace(s[j])
    decreases |s| - i
  {
    if i < |s| && IsSpace(s[i]) then SpaceRunEnd(s, i + 1) else i
  }

  /** `\b`: exactly one of the characters around position `i` is a word
      character. */
  predicate WordBoundary(s: string, i: nat)
    requires i <= |s|
  {
    (i > 0 && IsWordChar(s[i - 1])) != (i < |s| && IsWordChar(s[i]))
  }

  // ---------------------------------------------------------------------
  // The language of each alternative, stated without runs or positions.

  /** A word of `\d+`. */
  predicate IsDigits(w: string)
  {
    w != [] && forall k :: 0 <= k < |w| ==> IsDigit(w[k])
  }

  /** A word of `\s*\d+`: either digits, or one space followed by such a
      word. */
  predicate SpacesThenDigits(w: string)
    decreases |w|
  {
    IsDigits(w) || (w != [] && IsSpace(w[0]) && SpacesThenDigits(w[1..]))
  }

  /** A word of `\d+[\.\)]`. */
  predicate IsNumberedWord(w: string)
  {
    |w| >= 2 && IsDigits(w[..|w| - 1]) && (w[|w| - 1] == '.' || w[|w| - 1] == ')')
  }

  /** A word of `Q\s*\d+`, case-insensitively. */
  predicate IsQLabelWord(w: string)
  {
    |w| >= 1 && (w[0] == 'Q' || w[0] == 'q') && SpacesThenDigits(w[1..])
  }

  /** A word of `Question\s+\d+`, case-insensitively. */
  predicate IsQuestionLabelWord(w: string)
  {
    |w| >= 9 && ToLower(w[..8]) == "question" && IsSpace(w[8]) && SpacesThenDigits(w[9..])
  }

  /** The question pattern can match exactly `s[i..j]`. */
  predicate MatchesAt(s: string, i: int, j: int)
  {
    && 0 <= i <= j <= |s|
    && (|| IsNumberedWord(s[i..j])
        || (WordBoundary(s, i) && (IsQLabelWord(s[i..j]) || IsQuestionLabelWord(s[i..j]))))
  }

  // ---------------------------------------------------------------------
  // The scanners.

  /** Alternative `\d+[\.\)]` tried at `i`: the end of its match. */
  function NumberedAt(s: string, i: nat): (r: Option<nat>)
    requires i <= |s|
    ensures r.Some? ==> MatchesAt(s, i, r.value) && IsNumberedWord(s[i..r.value])
    ensures r.None? ==> forall j :: i <= j <= |s| ==> !IsNumberedWord(s[i..j])
    ensures forall j :: i <= j <= |s| && IsNumberedWord(s[i..j]) ==> r == Some(j)
  {
    if i < |s| && IsDigit(s[i]) then
      var d := DigitRunEnd(s, i);
      if d < |s| && (s[d] == '.' || s[d] == ')') then
        assert s[i..d + 1][..d - i] == s[i..d];
        assert IsNumberedWord(s[i..d + 1]);
        NumberedEnds(s, i);
        Some(d + 1)
      else
        NumberedNone(s, i);
        None
    else
      NumberedNone(s, i);
      None
  }

  /** No word of `\d+[\.\)]` starts at `i` when the digit run there is
      empty or is not followed by a separator. */
  lemma NumberedNone(s: string, i: nat)
    requires i <= |s|
    requires !(i < |s| && IsDigit(s[i])) ||
             (DigitRunEnd(s, i) == |s| || !(s[DigitRunEnd(s, i)] == '.' || s[DigitRunEnd(s, i)] == ')'))
    ensures forall j :: i <= j <= |s| ==> !IsNumberedWord(s[i..j])
  {
    forall j | i <= j <= |s| && IsNumberedWord(s[i..j]) ensures false {
      NumberedShape(s, i, j);
    }
  }

  /** A numbered word at `i` is the whole digit run there and the separator
      right after it. */
  lemma NumberedShape(s: string, i: nat, j: nat)
    requires i <= j <= |s| && IsNumberedWord(s[i..j])
    ensures i < |s| && IsDigit(s[i])
    ensures DigitRunEnd(s, i) == j - 1 && (s[j - 1] == '.' || s[j - 1] == ')')
  {
    var w := s[i..j];
    var d := j - 1;
    forall t | i <= t < d ensures IsDigit(s[t]) { assert s[t] == w[..|w| - 1][t - i]; }
    DigitRunAtLeast(s, i, d);
    assert s[d] == w[|w| - 1];
  }

  /** All numbered words at `i` end at the same place. */
  lemma NumberedEnds(s: string, i: nat)
    requires i <= |s|
    ensures forall j :: i <= j <= |s| && IsNumberedWord(s[i..j]) ==> j == DigitRunEnd(s, i) + 1
  {
    forall j | i <= j <= |s| && IsNumberedWord(s[i..j]) ensures j == DigitRunEnd(s, i) + 1 {
      NumberedShape(s, i, j);
    }
  }

  /** A word of either `Q` alternative starts with `Q` or `q`; a word of
      `Question\s+\d+` has `u` or `U` second. */
  lemma LabelHead(s: string, i: nat, j: nat)
    requires i <= j <= |s| && (IsQLabelWord(s[i..j]) || IsQuestionLabelWord(s[i..j]))
    ensures i < j && (s[i] == 'Q' || s[i] == 'q')
    ensures IsQuestionLabelWord(s[i..j]) ==> i + 1 < j && (s[i + 1] == 'U' || s[i + 1] == 'u')
  {
    assert s[i..j][0] == s[i];
    if IsQuestionLabelWord(s[i..j]) {
      var h := s[i..j][..8];
      assert h[0] == s[i] && h[1] == s[i + 1];
      assert ToLower(h)[0] == 'q' && ToLower(h)[1] == 'u';
    }
  }

  /** A digit at `i` starts no word of the two `Q` alternatives. */
  lemma DigitStartsNoLabel(s: string, i: nat)
    requires i < |s| && IsDigit(s[i])
    ensures forall j :: i <= j <= |s| ==> !IsQLabelWord(s[i..j]) && !IsQuestionLabelWord(s[i..j])
  {
    forall j | i <= j <= |s| && (IsQLabelWord(s[i..j]) || IsQuestionLabelWord(s[i..j])) ensures false {
      LabelHead(s, i, j);
    }
  }

  /** Every position of an all-digit stretch lies inside the greedy run. */
  lemma {:induction false} DigitRunAtLeast(s: string, i: nat, j: nat)
    requires i <= j <= |s|
    requires forall k :: i <= k < j ==> IsDigit(s[k])
    ensures DigitRunEnd(s, i) >= j
    decreases j - i
  {
    if i < j { DigitRunAtLeast(s, i + 1, j); }
  }

  /** `\s*\d+` accepts `s[k..j]` exactly when `j` ends a non-empty part of
      the digit run that follows the white-space run starting at `k`. */
  lemma {:induction false} SpacesThenDigitsRun(s: string, k: nat, j: nat)
    requires k <= j <= |s|
    ensures SpacesThenDigits(s[k..j]) <==>
            (SpaceRunEnd(s, k) < j && j <= DigitRunEnd(s, SpaceRunEnd(s, k)))
    decreases j - k
  {
    var w := s[k..j];
    var m := SpaceRunEnd(s, k);
    if k == j {
    } else if IsSpace(s[k]) {
      assert w[1..] == s[k + 1..j];
      assert !IsDigits(w) by { assert w[0] == s[k]; }
      SpacesThenDigitsRun(s, k + 1, j);
    } else {
      assert m == k;
      assert w[0] == s[k];
      assert SpacesThenDigits(w) <==> IsDigits(w);
      if IsDigits(w) {
        forall t | k <= t < j ensures IsDigit(s[t]) { assert s[t] == w[t - k]; }
        DigitRunAtLeast(s, k, j);
      }
      if k < j <= DigitRunEnd(s, k) {
        assert forall t :: 0 <= t < |w| ==> w[t] == s[k + t];
      }
    }
  }

  /** Alternative `\bQ\s*\d+` tried at `i`: the end of its (greedy) match. */
  function QLabelAt(s: string, i: nat): (r: Option<nat>)
    requires i <= |s|
    ensures r.Some? ==> MatchesAt(s, i, r.value)
    ensures r.Some? ==> WordBoundary(s, i) && IsQLabelWord(s[i..r.value])
    ensures r.Some? && r.value < |s| ==> !IsDigit(s[r.value])
    ensures r.None? ==> forall j :: i <= j <= |s| ==> !(WordBoundary(s, i) && IsQLabelWord(s[i..j]))
    ensures forall j :: i <= j <= |s| && WordBoundary(s, i) && IsQLabelWord(s[i..j]) ==> r.Some? && j <= r.value
  {
    if WordBoundary(s, i) && i < |s| && (s[i] == 'Q' || s[i] == 'q') then
      var m := SpaceRunEnd(s, i + 1);
      if m < |s| && IsDigit(s[m]) then
        QLabelFound(s, i);
        QLabelGreedy(s, i);
        Some(DigitRunEnd(s, m))
      else
        QLabelNone(s, i);
        None
    else
      assert forall j :: i <= j <= |s| && IsQLabelWord(s[i..j]) ==> s[i..j][0] == s[i];
      None
  }

  /** After a `Q`, white space and then a digit make a word of the
      alternative that ends where the digits do. */
  lemma QLabelFound(s: string, i: nat)
    requires i < |s| && (s[i] == 'Q' || s[i] == 'q')
    requires SpaceRunEnd(s, i + 1) < |s| && IsDigit(s[SpaceRunEnd(s, i + 1)])
    ensures IsQLabelWord(s[i..DigitRunEnd(s, SpaceRunEnd(s, i + 1))])
  {
    var e := DigitRunEnd(s, SpaceRunEnd(s, i + 1));
    SpacesThenDigitsRun(s, i + 1, e);
    assert s[i..e][1..] == s[i + 1..e];
  }

  /** Every word of `Q\s*\d+` at `i` ends inside the digit run that
      follows the `Q` and its white space. */
  lemma QLabelEnds(s: string, i: nat, j: nat)
    requires i <= j <= |s| && IsQLabelWord(s[i..j])
    ensures i < |s| && SpaceRunEnd(s, i + 1) < j <= DigitRunEnd(s, SpaceRunEnd(s, i + 1))
  {
    assert s[i..j][1..] == s[i + 1..j];
    SpacesThenDigitsRun(s, i + 1, j);
  }

  lemma QLabelGreedy(s: string, i: nat)
    requires i < |s|
    ensures forall j :: i <= j <= |s| && IsQLabelWord(s[i..j]) ==> j <= DigitRunEnd(s, SpaceRunEnd(s, i + 1))
  {
    forall j | i <= j <= |s| && IsQLabelWord(s[i..j]) ensures j <= DigitRunEnd(s, SpaceRunEnd(s, i + 1)) {
      QLabelEnds(s, i, j);
    }
  }

  /** Where `Q\s*\d+` succeeds, the character after the `Q` is white space
      or a digit, so no word of `Question\s+\d+` starts there. */
  lemma QLabelExcludesQuestion(s: string, i: nat)
    requires i <= |s| && QLabelAt(s, i).Some?
    ensures forall j :: i <= j <= |s| ==> !IsQuestionLabelWord(s[i..j])
  {
    var m := SpaceRunEnd(s, i + 1);
    assert m < |s| && IsDigit(s[m]);
    assert i + 1 < |s| && (IsSpace(s[i + 1]) || IsDigit(s[i + 1]));
    forall j | i <= j <= |s| && IsQuestionLabelWord(s[i..j]) ensures false {
      LabelHead(s, i, j);
    }
  }

  lemma QLabelNone(s: string, i: nat)
    requires i < |s|
    requires !(SpaceRunEnd(s, i + 1) < |s| && IsDigit(s[SpaceRunEnd(s, i + 1)]))
    ensures forall j :: i <= j <= |s| ==> !IsQLabelWord(s[i..j])
  {
    forall j | i <= j <= |s| && IsQLabelWord(s[i..j]) ensures false {
      assert s[i..j][1..] == s[i + 1..j];
      SpacesThenDigitsRun(s, i + 1, j);
    }
  }

  /** Alternative `\bQuestion\s+\d+` tried at `i`: the end of its (greedy)
      match. */
  function QuestionLabelAt(s: string, i: nat): (r: Option<nat>)
    requires i <= |s|
    ensures r.Some? ==> MatchesAt(s, i, r.value)
    ensures r.Some? ==> WordBoundary(s, i) && IsQuestionLabelWord(s[i..r.value])
    ensures r.Some? && r.value < |s| ==> !IsDigit(s[r.value])
    ensures r.None? ==> forall j :: i <= j <= |s| ==> !(WordBoundary(s, i) && IsQuestionLabelWord(s[i..j]))
    ensures forall j :: i <= j <= |s| && WordBoundary(s, i) && IsQuestionLabelWord(s[i..j]) ==> r.Some? && j <= r.value
  {
    if WordBoundary(s, i) && i + 9 <= |s| && ToLower(s[i..i + 8]) == "question" && IsSpace(s[i + 8]) then
      var m := SpaceRunEnd(s, i + 9);
      if m < |s| && IsDigit(s[m]) then
        QuestionLabelFound(s, i);
        QuestionLabelGreedy(s, i);
        Some(DigitRunEnd(s, m))
      else
        QuestionLabelNone(s, i);
        None
    else
      QuestionLabelNoHead(s, i);
      None
  }

  /** After `question` and a space, white space and then a digit make a
      word of the alternative that ends where the digits do. */
  lemma QuestionLabelFound(s: string, i: nat)
    requires i + 9 <= |s| && ToLower(s[i..i + 8]) == "question" && IsSpace(s[i + 8])
    requires SpaceRunEnd(s, i + 9) < |s| && IsDigit(s[SpaceRunEnd(s, i + 9)])
    ensures IsQuestionLabelWord(s[i..DigitRunEnd(s, SpaceRunEnd(s, i + 9))])
  {
    var e := DigitRunEnd(s, SpaceRunEnd(s, i + 9));
    SpacesThenDigitsRun(s, i + 9, e);
    assert s[i..e][9..] == s[i + 9..e];
    assert s[i..e][..8] == s[i..i + 8];
  }

  /** Without `question` and a space at `i` no word of the alternative
      starts there. */
  lemma QuestionLabelNoHead(s: string, i: nat)
    requires i <= |s|
    requires !(WordBoundary(s, i) && i + 9 <= |s| && ToLower(s[i..i + 8]) == "question" && IsSpace(s[i + 8]))
    ensures forall j :: i <= j <= |s| ==> !(WordBoundary(s, i) && IsQuestionLabelWord(s[i..j]))
  {
    assert forall j :: i <= j <= |s| && IsQuestionLabelWord(s[i..j]) ==>
      s[i..j][..8] == s[i..i + 8] && s[i..j][8] == s[i + 8];
  }

  /** Every word of `Question\s+\d+` at `i` ends inside the digit run that
      follows `question`, a space and further white space. */
  lemma QuestionLabelEnds(s: string, i: nat, j: nat)
    requires i <= j <= |s| && IsQuestionLabelWord(s[i..j])
    ensures i + 9 <= |s| && SpaceRunEnd(s, i + 9) < j <= DigitRunEnd(s, SpaceRunEnd(s, i + 9))
  {
    assert s[i..j][9..] == s[i + 9..j];
    SpacesThenDigitsRun(s, i + 9, j);
  }

  lemma QuestionLabelGreedy(s: string, i: nat)
    requires i + 9 <= |s|
    ensures forall j :: i <= j <= |s| && IsQuestionLabelWord(s[i..j]) ==> j <= DigitRunEnd(s, SpaceRunEnd(s, i + 9))
  {
    forall j | i <= j <= |s| && IsQuestionLabelWord(s[i..j]) ensures j <= DigitRunEnd(s, SpaceRunEnd(s, i + 9)) {
      QuestionLabelEnds(s, i, j);
    }
  }

  lemma QuestionLabelNone(s: string, i: nat)
    requires i + 9 <= |s|
    requires !(SpaceRunEnd(s, i + 9) < |s| && IsDigit(s[SpaceRunEnd(s, i + 9)]))
    ensures forall j :: i <= j <= |s| ==> !IsQuestionLabelWord(s[i..j])
  {
    forall j | i <= j <= |s| && IsQuestionLabelWord(s[i..j]) ensures false {
      assert s[i..j][9..] == s[i + 9..j];
      SpacesThenDigitsRun(s, i + 9, j);
    }
  }

  /** The three alternatives tried in order at position `i`. */
  function MatchAt(s: string, i: nat): (r: Option<nat>)
    requires i <= |s|
    ensures r.Some? ==> MatchesAt(s, i, r.value)
    ensures r.None? ==> forall j :: !MatchesAt(s, i, j)
    ensures r.Some? ==> forall j :: MatchesAt(s, i, j) ==> j <= r.value
  {
    var n := NumberedAt(s, i);
    if n.Some? then
      NumberedShape(s, i, n.value);
      DigitStartsNoLabel(s, i);
      n
    else
      var q := QLabelAt(s, i);
      if q.Some? then
        QLabelExcludesQuestion(s, i);
        q
      else QuestionLabelAt(s, i)
  }

  datatype Span = Span(start: nat, end: nat)

  /** The leftmost match that starts at `i` or later. */
  function SearchFrom(s: string, i: nat): (r: Option<Span>)
    requires i <= |s|
    ensures r.Some? ==> i <= r.value.start && MatchesAt(s, r.value.start, r.value.end)
    ensures r.Some? ==> forall p, j :: i <= p < r.value.start ==> !MatchesAt(s, p, j)
    ensures r.None? ==> forall p, j :: i <= p ==> !MatchesAt(s, p, j)
    ensures r.Some? ==> forall j :: MatchesAt(s, r.value.start, j) ==> j <= r.value.end
    decreases |s| - i
  {
    var m := MatchAt(s, i);
    if m.Some? then Some(Span(i, m.value))
    else if i == |s| then None
    else SearchFrom(s, i + 1)
  }

  /** What `exec` finds: the leftmost match of the question pattern. */
  function FirstMatch(s: string): (r: Option<Span>)
    ensures r.Some? ==> MatchesAt(s, r.value.start, r.value.end)
    ensures r.Some? ==> forall p, j :: p < r.value.start ==> !MatchesAt(s, p, j)
    ensures r.None? ==> forall p, j :: !MatchesAt(s, p, j)
    ensures r.Some? ==> forall j :: MatchesAt(s, r.value.start, j) ==> j <= r.value.end
  {
    SearchFrom(s, 0)
  }

  /** The leftmost-longest description of `exec`, in both directions: the
      search reports `s[p..e]` exactly when it is a word of the pattern, no
      word starts before `p`, and no word at `p` ends after `e`. */
  lemma FirstMatchIff(s: string, p: nat, e: nat)
    ensures FirstMatch(s) == Some(Span(p, e)) <==>
            && MatchesAt(s, p, e)
            && (forall q, j :: q < p ==> !MatchesAt(s, q, j))
            && (forall j :: MatchesAt(s, p, j) ==> j <= e)
  {
    if MatchesAt(s, p, e) && (forall q, j :: q < p ==> !MatchesAt(s, q, j)) && (forall j :: MatchesAt(s, p, j) ==> j <= e) {
      var m := FirstMatch(s).value;
      assert !(m.start < p) by {
        assert MatchesAt(s, m.start, m.end);
      }
      assert m.start == p;
      assert MatchesAt(s, p, m.end);
    }
  }

  /** `questionPattern.test(s)`: some substring is a word of the pattern. */
  predicate Test(s: string)
  {
    FirstMatch(s).Some?
  }

  lemma TestIffSomeMatch(s: string)
    ensures Test(s) <==> exists i, j :: MatchesAt(s, i, j)
  {
    if Test(s) {
      var m := FirstMatch(s).value;
      assert MatchesAt(s, m.start, m.end);
    }
  }

  /** `s.replace(questionPattern, '')`: the leftmost match removed once. */
  function RemoveFirstMatch(s: string): (r: string)
    ensures !Test(s) ==> r == s
    ensures Test(s) ==> |r| < |s|
    ensures Test(s) ==> r == s[..FirstMatch(s).value.start] + s[FirstMatch(s).value.end..]
  {
    match FirstMatch(s)
    case None => s
    case Some(m) => s[..m.start] + s[m.end..]
  }

  /** In `Q12 x` the greedy `\d+` takes both digits: `replace` leaves ` x`,
      not `2 x`. */
  lemma RemoveFirstMatchGreedy()
    ensures FirstMatch("Q12 x") == Some(Span(0, 3))
    ensures RemoveFirstMatch("Q12 x") == " x"
  {
    var line := "Q12 x";
    assert NumberedAt(line, 0) == None;
    assert SpaceRunEnd(line, 1) == 1 && DigitRunEnd(line, 1) == 3;
    assert QLabelAt(line, 0) == Some(3);
    assert MatchAt(line, 0) == Some(3);
    assert line[..0] + line[3..] == " x";
  }

  // ---------------------------------------------------------------------
  // The fallback question detection used when no pattern has been set.

  // `/^\d+[\.\)]\s*/.test(s) || /^Q\s*\d+/i.test(s)`.
  predicate FallbackTest(s: string)
  {
    || NumberedAt(s, 0).Some?
    || (&& |s| > 0 && (s[0] == 'Q' || s[0] == 'q')
        && SpaceRunEnd(s, 1) < |s| && IsDigit(s[SpaceRunEnd(s, 1)]))
  }

  /** A word of `Q\s*\d+[:\.\)]`, case-insensitively. */
  predicate IsQMarkerWord(w: string)
  {
    && |w| >= 2 && (w[0] == 'Q' || w[0] == 'q') && SpacesThenDigits(w[1..|w| - 1])
    && (w[|w| - 1] == ':' || w[|w| - 1] == '.' || w[|w| - 1] == ')')
  }

  /** The part of the fallback replacement before its trailing `\s*`. */
  predicate IsFallbackMarker(w: string)
  {
    IsNumberedWord(w) || IsQMarkerWord(w)
  }

  /** Where the marker of the fallback replacement ends, if the line starts
      with one: `^\d+[\.\)]` is tried first, then `^Q\s*\d+[:\.\)]`. */
  function FallbackMarkerEnd(s: string): (r: Option<nat>)
    ensures r.Some? ==> r.value <= |s| && IsFallbackMarker(s[..r.value])
    ensures forall j :: 0 <= j <= |s| && IsFallbackMarker(s[..j]) ==> r == Some(j)
  {
    FallbackMarkers(s);
    var n := NumberedAt(s, 0);
    if n.Some? then
      assert s[..n.value] == s[0..n.value];
      n
    else if |s| > 0 && (s[0] == 'Q' || s[0] == 'q') then
      var m := SpaceRunEnd(s, 1);
      if m < |s| && IsDigit(s[m]) then
        var e := DigitRunEnd(s, m);
        if e < |s| && (s[e] == ':' || s[e] == '.' || s[e] == ')') then
          QMarkerFound(s, e);
          Some(e + 1)
        else None
      else None
    else None
  }

  // `s.replace(/^\d+[\.\)]\s*|^Q\s*\d+[:\.\)]\s*/i, '')`: both
  // alternatives are anchored, so at most a prefix is removed: a marker at
  // the start of the line and all the white space after it.
  function FallbackStrip(s: string): (r: string)
    ensures |r| <= |s| && r == s[|s| - |r|..]
    ensures forall j :: 0 <= j <= |s| && IsFallbackMarker(s[..j]) ==> r == s[SpaceRunEnd(s, j)..]
    ensures (forall j :: 0 <= j <= |s| ==> !IsFallbackMarker(s[..j])) ==> r == s
  {
    match FallbackMarkerEnd(s)
    case None => s
    case Some(j) => s[SpaceRunEnd(s, j)..]
  }

  /** After a `Q`, white space, digits and a separator make a marker. */
  lemma QMarkerFound(s: string, e: nat)
    requires |s| > 0 && (s[0] == 'Q' || s[0] == 'q')
    requires SpaceRunEnd(s, 1) < |s| && IsDigit(s[SpaceRunEnd(s, 1)])
    requires e == DigitRunEnd(s, SpaceRunEnd(s, 1))
    requires e < |s| && (s[e] == ':' || s[e] == '.' || s[e] == ')')
    ensures IsQMarkerWord(s[..e + 1])
  {
    assert SpaceRunEnd(s, 1) < e;
    SpacesThenDigitsRun(s, 1, e);
    QMarkerOfParts(s, e);
  }

  lemma QMarkerOfParts(s: string, e: nat)
    requires 1 <= e < |s| && (s[0] == 'Q' || s[0] == 'q') && SpacesThenDigits(s[1..e])
    requires s[e] == ':' || s[e] == '.' || s[e] == ')'
    ensures IsQMarkerWord(s[..e + 1])
  {
    var w := s[..e + 1];
    assert w[0] == s[0] && w[e] == s[e];
    assert w[1..e] == s[1..e];
  }

  /** A marker at the start of `s` is either the numbered word that
      `NumberedAt` finds, or a `Q` marker that ends right after the digit
      run. */
  lemma FallbackMarkerShape(s: string, j: nat)
    requires j <= |s| && IsFallbackMarker(s[..j])
    ensures || NumberedAt(s, 0) == Some(j)
            || (&& NumberedAt(s, 0).None? && |s| > 0 && (s[0] == 'Q' || s[0] == 'q')
                && SpaceRunEnd(s, 1) < |s| && IsDigit(s[SpaceRunEnd(s, 1)])
                && DigitRunEnd(s, SpaceRunEnd(s, 1)) + 1 == j)
  {
    assert s[..j] == s[0..j];
    if !IsNumberedWord(s[..j]) {
      var m := SpaceRunEnd(s, 1);
      assert s[..j][1..j - 1] == s[1..j - 1];
      assert s[0] == s[..j][0] && s[j - 1] == s[..j][j - 1];
      SpacesThenDigitsRun(s, 1, j - 1);
      QStartsNoNumber(s);
    }
  }

  lemma QStartsNoNumber(s: string)
    requires |s| > 0 && (s[0] == 'Q' || s[0] == 'q')
    ensures NumberedAt(s, 0).None?
  {
    if NumberedAt(s, 0).Some? {
      NumberedShape(s, 0, NumberedAt(s, 0).value);
      assert false;
    }
  }

  lemma FallbackMarkers(s: string)
    ensures forall j :: 0 <= j <= |s| && IsFallbackMarker(s[..j]) ==>
              || NumberedAt(s, 0) == Some(j)
              || (&& NumberedAt(s, 0).None? && |s| > 0 && (s[0] == 'Q' || s[0] == 'q')
                  && SpaceRunEnd(s, 1) < |s| && IsDigit(s[SpaceRunEnd(s, 1)])
                  && DigitRunEnd(s, SpaceRunEnd(s, 1)) + 1 == j)
  {
    forall j | 0 <= j <= |s| && IsFallbackMarker(s[..j])
      ensures || NumberedAt(s, 0) == Some(j)
              || (&& NumberedAt(s, 0).None? && |s| > 0 && (s[0] == 'Q' || s[0] == 'q')
                  && SpaceRunEnd(s, 1) < |s| && IsDigit(s[SpaceRunEnd(s, 1)])
                  && DigitRunEnd(s, SpaceRunEnd(s, 1)) + 1 == j)
    {
      FallbackMarkerShape(s, j);
    }
  }

  /** Whenever the fallback would fire, the unanchored pattern fires too:
      with the pattern set, the fallback branch is never reached. */
  lemma FallbackImpliesTest(s: string)
    requires FallbackTest(s)
    ensures Test(s)
  {
    if NumberedAt(s, 0).None? {
      assert WordBoundary(s, 0);
      assert QLabelAt(s, 0).Some?;
    }
    assert MatchAt(s, 0).Some?;
  }

  /** Every word of `\s*\d+` holds a digit. */
  lemma {:induction false} SpacesThenDigitsHasDigit(w: string)
    requires SpacesThenDigits(w)
    ensures exists k :: 0 <= k < |w| && IsDigit(w[k])
    decreases |w|
  {
    if IsDigits(w) {
      assert IsDigit(w[0]);
    } else {
      SpacesThenDigitsHasDigit(w[1..]);
      var k :| 0 <= k < |w[1..]| && IsDigit(w[1..][k]);
      assert IsDigit(w[k + 1]);
    }
  }

  /** Every word of the question pattern holds a digit. */
  lemma MatchHasDigit(s: string, i: int, j: int)
    requires MatchesAt(s, i, j)
    ensures exists d :: i <= d < j && IsDigit(s[d])
  {
    var w := s[i..j];
    if IsNumberedWord(w) {
      NumberedShape(s, i, j);
    } else {
      var a := if IsQLabelWord(w) then 1 else 9;
      SpacesThenDigitsHasDigit(w[a..]);
      var k :| 0 <= k < |w[a..]| && IsDigit(w[a..][k]);
      assert w[a..][k] == s[i + a + k];
    }
  }

  /** Every alternative of the question pattern needs a digit, so a line
      without digits never starts a question. */
  lemma NoDigitNoMatch(s: string)
    requires forall k :: 0 <= k < |s| ==> !IsDigit(s[k])
    ensures !Test(s) && !FallbackTest(s)
  {
    forall i, j | MatchesAt(s, i, j) ensures false {
      MatchHasDigit(s, i, j);
    }
    TestIffSomeMatch(s);
    if FallbackTest(s) {
      FallbackImpliesTest(s);
    }
  }

  // ---------------------------------------------------------------------
  // The option-line patterns (both case-sensitive).

  // `/^[A-D][\.\)]\s*/.test(s)`.
  predicate IsOptionLine(s: string)
  {
    |s| >= 2 && 'A' <= s[0] <= 'D' && (s[1] == '.' || s[1] == ')')
  }

  /** First line terminator at or after `i`: where `.+` stops. */
  function LineEnd(s: string, i: nat): (j: nat)
    requires i <= |s|
    ensures i <= j <= |s|
    ensures forall k :: i <= k < j ==> !IsLineTerminator(s[k])
    ensures j < |s| ==> IsLineTerminator(s[j])
    decreases |s| - i
  {
    if i < |s| && !IsLineTerminator(s[i]) then LineEnd(s, i + 1) else i
  }

  /** The greatest `p` with `lo <= p < hi` and `s[p]` not a line terminator,
      if any: where `(.+)` starts when `\s*` has to give characters back. */
  function BacktrackStart(s: string, lo: nat, hi: nat): (r: Option<nat>)
    requires lo <= hi <= |s|
    ensures r.Some? ==> lo <= r.value < hi && !IsLineTerminator(s[r.value])
    ensures r.Some? ==> forall p :: r.value < p < hi ==> IsLineTerminator(s[p])
    ensures r.None? <==> forall p :: lo <= p < hi ==> IsLineTerminator(s[p])
    decreases hi - lo
  {
    if hi == lo then None
    else if !IsLineTerminator(s[hi - 1]) then Some(hi - 1)
    else BacktrackStart(s, lo, hi - 1)
  }

  datatype OptionGroups = OptionGroups(letter: char, body: string)

  /** `s.match(/^([A-D])[\.\)]\s*(.+)/)`: the two capture groups, if the
      expression matches. `\s*` first takes the whole white-space run after
      the marker; only when nothing follows that run does it give characters
      back to `(.+)`. */
  function MatchOption(s: string): (r: Option<OptionGroups>)
    ensures r.Some? ==> IsOptionLine(s) && r.value.letter == s[0]
    ensures r.Some? ==> r.value.body != [] && forall k :: 0 <= k < |r.value.body| ==> !IsLineTerminator(r.value.body[k])
    ensures !IsOptionLine(s) ==> r.None?
    ensures IsOptionLine(s) && SpaceRunEnd(s, 2) < |s| ==>
              var k := SpaceRunEnd(s, 2);
              r == Some(OptionGroups(s[0], s[k..LineEnd(s, k)]))
  {
    if !IsOptionLine(s) then None
    else
      var k := SpaceRunEnd(s, 2);
      if k < |s| then
        assert !IsLineTerminator(s[k]);
        Some(OptionGroups(s[0], s[k..LineEnd(s, k)]))
      else
        match BacktrackStart(s, 2, k)
        case None => None
        case Some(p) => Some(OptionGroups(s[0], s[p..LineEnd(s, p)]))
  }

  /** When `\s*` must give characters back, the capture it hands to `(.+)`
      is white space only, so it trims to nothing. */
  lemma BacktrackedBodyIsBlank(s: string)
    requires IsOptionLine(s) && SpaceRunEnd(s, 2) == |s|
    requires MatchOption(s).Some?
    ensures Trim(MatchOption(s).value.body) == []
  {
    var p := BacktrackStart(s, 2, |s|).value;
    assert MatchOption(s).value.body == s[p..LineEnd(s, p)];
    InsideSpaceRun(s, 2, p, LineEnd(s, p));
  }

  /** On `A.  ` the white-space run reaches the end, so `\s*` gives back
      exactly one character and group 2 is the last space. */
  lemma OptionBacktracksOneSpace()
    ensures MatchOption("A.  ") == Some(OptionGroups('A', " "))
  {
    var s := "A.  ";
    assert SpaceRunEnd(s, 2) == 4;
    assert BacktrackStart(s, 2, 4) == Some(3);
    assert LineEnd(s, 3) == 4;
    assert IsOptionLine(s);
    assert s[3..4] == " ";
  }

  /** On `A) C:\` nothing needs to be given back: group 1 is `A` and
      group 2 is `C:\`. */
  lemma BackslashOptionMatch()
    ensures IsOptionLine("A) C:\\") && MatchOption("A) C:\\") == Some(OptionGroups('A', "C:\\"))
  {
    var s := "A) C:\\";
    assert SpaceRunEnd(s, 2) == 3;
    assert LineEnd(s, 5) == 6;
    assert LineEnd(s, 3) == 6;
    assert IsOptionLine(s);
    assert s[3..6] == "C:\\";
  }

  /** Every slice of a white-space run is white space. */
  lemma InsideSpaceRun(s: string, i: nat, p: nat, q: nat)
    requires i <= |s| && i <= p <= q <= SpaceRunEnd(s, i)
    ensures AllSpace(s[p..q])
  {
    forall k | 0 <= k < q - p ensures IsSpace(s[p..q][k]) {
      assert s[p..q][k] == s[p + k];
    }
  }

  /** On a line with text after the marker, the body starts at the first
      non-space character after the marker and trims to a non-empty string. */
  lemma OptionBodyNonBlank(s: string)
    requires IsOptionLine(s) && SpaceRunEnd(s, 2) < |s|
    ensures MatchOption(s).Some?
    ensures Trim(MatchOption(s).value.body) != []
  {
    var k := SpaceRunEnd(s, 2);
    TrimNonEmpty(s[k..LineEnd(s, k)]);
  }
}
