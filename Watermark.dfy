/**
 * What `filterWatermarks` computes, as functions of its input.
 *
 * The filter splits the text on '\n' and makes two passes over the lines.
 * The first pass counts how often each key (the line trimmed and lower-cased)
 * occurs, for keys longer than 3 characters. The second pass classifies each
 * line by the first check that fires:
 * blank (trimmed length < 2), keyword, frequency, short all-caps, short
 * (trimmed length < 3), and otherwise keeps the original line. Keyword,
 * frequency and caps drops are counted; the two length drops are not.
 *
 * The slider value is an integer percent `p`; the source's test
 * `count > Math.max(2, 5 * p / 100)` is written `100 * count > Threshold(p)`.
 */
module Watermark {
  import opened Strings

  const Keywords: seq<string> :=
    ["watermark", "copy", "sample", "preview", "demo", "trial", "confidential", "draft"]

  /** The frequency-table key of a line: trimmed, then lower-cased. */
  function LineKey(line: string): string
  {
    ToLower(Trim(line))
  }

  /** `watermarkKeywords.some(keyword => key.includes(keyword))`. */
  predicate HasKeyword(key: string)
  {
    exists kw :: kw in Keywords && Contains(key, kw)
  }

  /** `line === line.toUpperCase() && line.length < 25 && line.length > 4`. */
  predicate IsShortCaps(line: string)
  {
    line == ToUpper(line) && 4 < |line| < 25
  }

  /** How many lines of `lines` have key `key`. */
  function Occurrences(lines: seq<string>, key: string): (n: nat)
    ensures n <= |lines|
  {
    if lines == [] then 0
    else Occurrences(lines[..|lines| - 1], key) + (if LineKey(lines[|lines| - 1]) == key then 1 else 0)
  }

  /** The count the first pass records for `line`: keys of length 3 or less
      are never recorded, and their lookup is `undefined`, which compares
      like 0 here since every threshold is at least 2. */
  function Frequency(lines: seq<string>, line: string): nat
  {
    if |LineKey(line)| > 3 then Occurrences(lines, LineKey(line)) else 0
  }

  /** 100 times `Math.max(2, 5 * p / 100)`. */
  function Threshold(percent: nat): nat
  {
    if 5 * percent > 200 then 5 * percent else 200
  }

  /** The integer test agrees with the source's comparison read over the
      reals: `count > max(2, 5 * (p / 100))`. */
  lemma ThresholdMeaning(percent: nat, count: nat)
    ensures 100 * count > Threshold(percent) <==>
            (count as real) > (if 5.0 * (percent as real / 100.0) > 2.0 then 5.0 * (percent as real / 100.0) else 2.0)
  {
  }

  /** At sensitivity 0 a key must occur more than twice, at sensitivity 1
      (p = 100) more than five times. */
  lemma ThresholdEnds(count: nat)
    ensures 100 * count > Threshold(0) <==> count > 2
    ensures 100 * count > Threshold(100) <==> count > 5
  {
  }

  datatype Verdict = Blank | Keyword | Frequent | Caps | Short | Kept

  /** The second pass's decision for one line, given its recorded count. */
  function Classify(line: string, freq: nat, percent: nat): Verdict
  {
    var key := LineKey(line);
    if |key| < 2 then Blank
    else if HasKeyword(key) then Keyword
    else if 100 * freq > Threshold(percent) then Frequent
    else if IsShortCaps(line) then Caps
    else if |key| < 3 then Short
    else Kept
  }

  /** The verdicts that increment `watermarksFiltered`. */
  predicate IsCounted(v: Verdict)
  {
    v == Keyword || v == Frequent || v == Caps
  }

  /** The verdict of `line` within the whole input `all`. */
  function VerdictIn(all: seq<string>, line: string, percent: nat): Verdict
  {
    Classify(line, Frequency(all, line), percent)
  }

  /** The lines of `ls` that the second pass keeps, in order, judged against
      the whole input `all`. */
  function KeptLines(ls: seq<string>, all: seq<string>, percent: nat): seq<string>
  {
    if ls == [] then []
    else
      var last := ls[|ls| - 1];
      KeptLines(ls[..|ls| - 1], all, percent) + (if VerdictIn(all, last, percent) == Kept then [last] else [])
  }

  /** How many lines of `ls` the second pass drops and counts. */
  function CountedDrops(ls: seq<string>, all: seq<string>, percent: nat): nat
  {
    if ls == [] then 0
    else
      var last := ls[|ls| - 1];
      CountedDrops(ls[..|ls| - 1], all, percent) + (if IsCounted(VerdictIn(all, last, percent)) then 1 else 0)
  }

  /** How many lines of `ls` the second pass drops silently. */
  function SilentDrops(ls: seq<string>, all: seq<string>, percent: nat): nat
  {
    if ls == [] then 0
    else
      var last := ls[|ls| - 1];
      var v := VerdictIn(all, last, percent);
      SilentDrops(ls[..|ls| - 1], all, percent) + (if v == Blank || v == Short then 1 else 0)
  }

  /** The text `filterWatermarks` returns. */
  function FilterText(text: string, percent: nat): string
  {
    var lines := Split(text, '\n');
    Join(KeptLines(lines, lines, percent), "\n")
  }

  /** How much `filterWatermarks` adds to `watermarksFiltered`. */
  function FilterCount(text: string, percent: nat): nat
  {
    var lines := Split(text, '\n');
    CountedDrops(lines, lines, percent)
  }

  /** The `textCounts` dictionary the first pass builds over `ls`. */
  function Table(ls: seq<string>): map<string, nat>
  {
    if ls == [] then map[]
    else
      var t := Table(ls[..|ls| - 1]);
      var key := LineKey(ls[|ls| - 1]);
      if |key| > 3 then t[key := (if key in t then t[key] else 0) + 1] else t
  }

  /** What `textCounts[trimmed] || 0` reads for `line` from table `t`. */
  function Recorded(t: map<string, nat>, line: string): nat
  {
    var key := LineKey(line);
    if key in t then t[key] else 0
  }

  /** One more line for the second pass. */
  lemma SecondPassStep(ls: seq<string>, line: string, all: seq<string>, percent: nat)
    ensures KeptLines(ls + [line], all, percent) ==
            KeptLines(ls, all, percent) + (if VerdictIn(all, line, percent) == Kept then [line] else [])
    ensures CountedDrops(ls + [line], all, percent) ==
            CountedDrops(ls, all, percent) + (if IsCounted(VerdictIn(all, line, percent)) then 1 else 0)
  {
    assert (ls + [line])[..|ls|] == ls;
  }

  /** The second pass over `all[..i + 1]`, in terms of the count the table
      holds for `all[i]`. */
  lemma SecondPassAt(all: seq<string>, i: nat, percent: nat)
    requires i < |all|
    ensures var v := Classify(all[i], Recorded(Table(all), all[i]), percent);
      && KeptLines(all[..i + 1], all, percent) == KeptLines(all[..i], all, percent) + (if v == Kept then [all[i]] else [])
      && CountedDrops(all[..i + 1], all, percent) == CountedDrops(all[..i], all, percent) + (if IsCounted(v) then 1 else 0)
  {
    assert all[..i + 1] == all[..i] + [all[i]];
    SecondPassStep(all[..i], all[i], all, percent);
    TableLookup(all, all[i]);
  }

  /** One more line for the first pass. */
  lemma FirstPassStep(ls: seq<string>, line: string)
    ensures var t := Table(ls); var key := LineKey(line);
      Table(ls + [line]) == if |key| > 3 then t[key := (if key in t then t[key] else 0) + 1] else t
  {
    assert (ls + [line])[..|ls|] == ls;
  }

  // ---------------------------------------------------------------------
  // Properties.

  /** The first pass records exactly the keys longer than 3 characters that
      occur, each with its number of occurrences. */
  lemma {:induction false} TableCounts(ls: seq<string>, key: string)
    ensures key in Table(ls) <==> |key| > 3 && Occurrences(ls, key) > 0
    ensures key in Table(ls) ==> Table(ls)[key] == Occurrences(ls, key)
  {
    if ls != [] {
      TableCounts(ls[..|ls| - 1], key);
    }
  }

  /** The count the second pass reads from the table is the frequency of
      the line in the whole input. */
  lemma TableLookup(all: seq<string>, line: string)
    requires line in all
    ensures (if LineKey(line) in Table(all) then Table(all)[LineKey(line)] else 0) == Frequency(all, line)
  {
    TableCounts(all, LineKey(line));
    if |LineKey(line)| > 3 {
      OccursAtLeastOnce(all, line);
    }
  }

  lemma {:induction false} OccursAtLeastOnce(all: seq<string>, line: string)
    requires line in all
    ensures Occurrences(all, LineKey(line)) > 0
  {
    if all[|all| - 1] != line {
      assert line in all[..|all| - 1];
      OccursAtLeastOnce(all[..|all| - 1], line);
    }
  }

  /** `a` is `b` with some elements left out, the rest in order. */
  predicate IsSubsequence(a: seq<string>, b: seq<string>)
    decreases |b|
  {
    || a == []
    || (&& b != []
        && (|| (a[|a| - 1] == b[|b| - 1] && IsSubsequence(a[..|a| - 1], b[..|b| - 1]))
            || IsSubsequence(a, b[..|b| - 1])))
  }

  /** The kept lines are a subsequence of the input lines: nothing is
      reordered, duplicated, trimmed or re-cased. */
  lemma {:induction false} KeptIsSubsequence(ls: seq<string>, all: seq<string>, percent: nat)
    ensures IsSubsequence(KeptLines(ls, all, percent), ls)
  {
    if ls != [] {
      var init, last := ls[..|ls| - 1], ls[|ls| - 1];
      var k := KeptLines(init, all, percent);
      KeptIsSubsequence(init, all, percent);
      if VerdictIn(all, last, percent) == Kept {
        var r := k + [last];
        assert KeptLines(ls, all, percent) == r;
        assert r[..|r| - 1] == k;
      } else {
        assert KeptLines(ls, all, percent) == k;
      }
    }
  }

  /** Every kept line trims to at least 3 characters, mentions no
      keyword, is not a short all-caps line, and its key is not over the
      repeat threshold in the whole input. */
  lemma {:induction false} KeptLinesClean(ls: seq<string>, all: seq<string>, percent: nat)
    ensures forall line :: line in KeptLines(ls, all, percent) ==>
      && line in ls
      && |Trim(line)| >= 3
      && !HasKeyword(LineKey(line))
      && !IsShortCaps(line)
      && 100 * Frequency(all, line) <= Threshold(percent)
  {
    if ls != [] {
      KeptLinesClean(ls[..|ls| - 1], all, percent);
    }
  }

  /** Conversely, every line of `ls` that trims to at least 3 characters,
      mentions no keyword, is not a short all-caps line and whose key is not
      over the repeat threshold is kept. */
  lemma {:induction false} CleanLineKept(ls: seq<string>, all: seq<string>, percent: nat, line: string)
    requires line in ls
    requires |Trim(line)| >= 3 && !HasKeyword(LineKey(line)) && !IsShortCaps(line)
    requires 100 * Frequency(all, line) <= Threshold(percent)
    ensures line in KeptLines(ls, all, percent)
  {
    var init := ls[..|ls| - 1];
    if ls[|ls| - 1] == line {
      assert VerdictIn(all, line, percent) == Kept;
    } else {
      var i :| 0 <= i < |ls| && ls[i] == line;
      assert init[i] == line;
      CleanLineKept(init, all, percent, line);
    }
  }

  /** Frequency is global: a line whose key is longer than 3 characters and
      occurs more often than the threshold anywhere in the input is never
      kept, wherever it stands. */
  lemma FrequentNeverKept(all: seq<string>, percent: nat, line: string)
    requires |LineKey(line)| > 3 && 100 * Occurrences(all, LineKey(line)) > Threshold(percent)
    ensures line !in KeptLines(all, all, percent)
  {
    KeptLinesClean(all, all, percent);
  }

  /** Lines with the same key get the same blank, keyword and frequency
      verdicts. */
  lemma SameKeySameVerdict(all: seq<string>, a: string, b: string, percent: nat)
    requires LineKey(a) == LineKey(b)
    ensures VerdictIn(all, a, percent) == Blank ==> VerdictIn(all, b, percent) == Blank
    ensures VerdictIn(all, a, percent) == Keyword ==> VerdictIn(all, b, percent) == Keyword
    ensures VerdictIn(all, a, percent) == Frequent ==> VerdictIn(all, b, percent) == Frequent
  {
    ClassifySameKey(a, b, Frequency(all, a), percent);
  }

  lemma ClassifySameKey(a: string, b: string, freq: nat, percent: nat)
    requires LineKey(a) == LineKey(b)
    ensures Classify(a, freq, percent) == Blank ==> Classify(b, freq, percent) == Blank
    ensures Classify(a, freq, percent) == Keyword ==> Classify(b, freq, percent) == Keyword
    ensures Classify(a, freq, percent) == Frequent ==> Classify(b, freq, percent) == Frequent
  {
    var key := LineKey(a);
    if |key| >= 2 && !HasKeyword(key) && 100 * freq <= Threshold(percent) {
      assert Classify(a, freq, percent) in {Caps, Short, Kept};
    }
  }

  /** Accounting: every line is kept, dropped and counted, or dropped
      silently, exactly one of the three. */
  lemma {:induction false} Accounting(ls: seq<string>, all: seq<string>, percent: nat)
    ensures |KeptLines(ls, all, percent)| + CountedDrops(ls, all, percent) + SilentDrops(ls, all, percent) == |ls|
  {
    if ls != [] {
      Accounting(ls[..|ls| - 1], all, percent);
    }
  }

  /** A line without lower-case letters whose raw length is 5 to 24, such as
      "12345", is dropped as a caps stamp. */
  lemma DigitsLineIsCaps()
    ensures IsShortCaps("12345")
  {
    assert ToUpper("12345") == "12345";
  }
}
