/**
 * The `WorksheetExtractor` object with the state its text pipeline touches:
 * whether a question pattern has been set (it stays `null` until a sample
 * has been analysed), the running `watermarksFiltered` counter, which the
 * constructor zeroes and every filter run increases, and the result of the
 * last extraction. The two pipeline methods keep the source's loops and
 * locals and are proved to compute the functions of `Watermark` and
 * `Questions`.
 */
module Extractor {
  import opened Strings
  import opened QuestionPattern
  import opened Watermark
  import opened Questions

  class WorksheetExtractor {
    /** `this.questionPattern !== null`; when set it is always the pattern
        that `detectPatterns` returns. */
    var questionPatternSet: bool
    var watermarksFiltered: nat
    /** The result object of the last extraction, as its entries in key
        order. */
    var extractedQuestions: seq<Entry>

    constructor ()
      ensures !questionPatternSet && watermarksFiltered == 0 && extractedQuestions == []
    {
      questionPatternSet := false;
      watermarksFiltered := 0;
      extractedQuestions := [];
    }

    /** The part of `analyzeSample` that the pipeline sees: the question
        pattern becomes set, unless no sample was chosen (the early return)
        or the sample image never loads (the awaited promise never
        resolves). */
    method AnalyzeSample(hasSample: bool, imageLoads: bool)
      modifies this`questionPatternSet
      ensures questionPatternSet == (old(questionPatternSet) || (hasSample && imageLoads))
    {
      if !hasSample {
        return;
      }
      if imageLoads {
        questionPatternSet := true;
      }
    }

    /** The first pass of `filterWatermarks`: how often each key longer
        than 3 characters occurs. */
    static method CountKeys(lines: seq<string>) returns (textCounts: map<string, nat>)
      ensures forall key :: key in textCounts <==> |key| > 3 && Occurrences(lines, key) > 0
      ensures forall key :: key in textCounts ==> textCounts[key] == Occurrences(lines, key)
      ensures textCounts == Table(lines)
    {
      textCounts := map[];
      var i := 0;
      while i < |lines|
        invariant 0 <= i <= |lines|
        invariant textCounts == Table(lines[..i])
      {
        assert lines[..i + 1] == lines[..i] + [lines[i]];
        FirstPassStep(lines[..i], lines[i]);
        var trimmed := LineKey(lines[i]);
        if |trimmed| > 3 {
          textCounts := textCounts[trimmed := (if trimmed in textCounts then textCounts[trimmed] else 0) + 1];
        }
        i := i + 1;
      }
      assert lines[..|lines|] == lines;
      forall key { TableCounts(lines, key); }
    }

    /** `filterWatermarks`, with the slider read passed in as a percent. */
    method FilterWatermarks(text: string, sliderPercent: nat) returns (cleanText: string)
      modifies this`watermarksFiltered
      ensures cleanText == FilterText(text, sliderPercent)
      ensures watermarksFiltered == old(watermarksFiltered) + FilterCount(text, sliderPercent)
    {
      var lines := Split(text, '\n');

      // First pass: track repeated lines.
      var textCounts := CountKeys(lines);

      // Second pass: classify every line.
      var filteredLines := SecondPass(lines, textCounts, sliderPercent);
      cleanText := Join(filteredLines, "\n");
    }

    /** The second pass of `filterWatermarks`: the `forEach` over all lines
        with the first pass's table. */
    method SecondPass(lines: seq<string>, textCounts: map<string, nat>, sliderPercent: nat)
      returns (filteredLines: seq<string>)
      requires textCounts == Table(lines)
      modifies this`watermarksFiltered
      ensures filteredLines == KeptLines(lines, lines, sliderPercent)
      ensures watermarksFiltered == old(watermarksFiltered) + CountedDrops(lines, lines, sliderPercent)
    {
      filteredLines := [];
      var i := 0;
      while i < |lines|
        invariant 0 <= i <= |lines|
        invariant filteredLines == KeptLines(lines[..i], lines, sliderPercent)
        invariant watermarksFiltered == old(watermarksFiltered) + CountedDrops(lines[..i], lines, sliderPercent)
      {
        SecondPassAt(lines, i, sliderPercent);
        filteredLines := FilterLine(lines[i], textCounts, sliderPercent, filteredLines);
        i := i + 1;
      }
      assert lines[..|lines|] == lines;
    }

    /** The body of the second pass's `forEach` callback for one line, with
        the table lookup `textCounts[trimmed]` (`undefined` reads as 0). */
    method FilterLine(line: string, textCounts: map<string, nat>, sliderPercent: nat, filteredLines: seq<string>)
      returns (filteredLines': seq<string>)
      modifies this`watermarksFiltered
      ensures var verdict := Classify(line, Recorded(textCounts, line), sliderPercent);
              filteredLines' == filteredLines + (if verdict == Kept then [line] else [])
      ensures var verdict := Classify(line, Recorded(textCounts, line), sliderPercent);
              watermarksFiltered == old(watermarksFiltered) + (if IsCounted(verdict) then 1 else 0)
    {
      filteredLines' := filteredLines;
      var trimmed := LineKey(line);

      // Skip empty lines.
      if |trimmed| < 2 { return; }

      // Skip if contains watermark keywords.
      if HasKeyword(trimmed) {
        watermarksFiltered := watermarksFiltered + 1;
        return;
      }

      // Skip if appears too frequently.
      var count := if trimmed in textCounts then textCounts[trimmed] else 0;
      if 100 * count > Threshold(sliderPercent) {
        watermarksFiltered := watermarksFiltered + 1;
        return;
      }

      // Skip if all caps and short.
      if IsShortCaps(line) {
        watermarksFiltered := watermarksFiltered + 1;
        return;
      }

      // Skip very short lines.
      if |trimmed| < 3 { return; }

      filteredLines' := filteredLines + [line];
    }

    /** `parseQuestions`. */
    method ParseQuestions(text: string) returns (cleanedQuestions: seq<Entry>)
      ensures cleanedQuestions == Parse(text, questionPatternSet)
    {
      var lines := InputLines(text);
      var questions, currentQuestion, currentOptions, inQuestion := ParseLines(lines);

      // Save the last question.
      if Trim(currentQuestion) != [] {
        questions := Put(questions, Trim(currentQuestion), currentOptions);
      }

      cleanedQuestions := CleanUpQuestions(questions);
    }

    /** The `forEach` loop of `parseQuestions` over the non-blank trimmed
        lines, from the initial locals on. */
    method ParseLines(lines: seq<string>)
      returns (questions: seq<Entry>, currentQuestion: string, currentOptions: seq<Choice>, inQuestion: bool)
      ensures ParserState(questions, currentQuestion, currentOptions, inQuestion)
              == RunFrom(Initial, lines, questionPatternSet)
    {
      questions, currentQuestion, currentOptions, inQuestion := [], "", [], false;
      var i := 0;
      while i < |lines|
        invariant 0 <= i <= |lines|
        invariant ParserState(questions, currentQuestion, currentOptions, inQuestion)
                  == RunFrom(Initial, lines[..i], questionPatternSet)
      {
        assert lines[..i + 1][..i] == lines[..i];
        questions, currentQuestion, currentOptions, inQuestion :=
          ParseLine(lines[i], questions, currentQuestion, currentOptions, inQuestion);
        i := i + 1;
      }
      assert lines[..|lines|] == lines;
    }

    /** The body of `parseQuestions`' loop for one line: rules (a) to (d)
        in order, the first that applies wins. */
    method ParseLine(line: string, questions: seq<Entry>, currentQuestion: string,
                     currentOptions: seq<Choice>, inQuestion: bool)
      returns (questions': seq<Entry>, currentQuestion': string, currentOptions': seq<Choice>, inQuestion': bool)
      ensures ParserState(questions', currentQuestion', currentOptions', inQuestion')
              == Step(ParserState(questions, currentQuestion, currentOptions, inQuestion), line, questionPatternSet)
    {
      questions', currentQuestion', currentOptions', inQuestion' := questions, currentQuestion, currentOptions, inQuestion;
      if questionPatternSet && Test(line) {
        if Trim(currentQuestion) != [] {
          questions' := Put(questions, Trim(currentQuestion), currentOptions);
        }
        currentQuestion' := Trim(RemoveFirstMatch(line));
        currentOptions' := [];
        inQuestion' := true;
      } else if FallbackTest(line) {
        if Trim(currentQuestion) != [] {
          questions' := Put(questions, Trim(currentQuestion), currentOptions);
        }
        currentQuestion' := Trim(FallbackStrip(line));
        currentOptions' := [];
        inQuestion' := true;
      } else if inQuestion && IsOptionLine(line) {
        var m := MatchOption(line);
        if m.Some? && Trim(m.value.body) != [] {
          currentOptions' := currentOptions + [Choice(m.value.letter, Trim(m.value.body))];
        }
      } else if inQuestion && |currentOptions| == 0 && |line| > 5 {
        currentQuestion' := currentQuestion + " " + line;
      }
    }

    /** The clean-up at the end of `parseQuestions`: keep the long questions
        that are not page or section headers. */
    static method CleanUpQuestions(questions: seq<Entry>) returns (cleanedQuestions: seq<Entry>)
      ensures cleanedQuestions == CleanUp(questions)
    {
      cleanedQuestions := [];
      var j := 0;
      while j < |questions|
        invariant 0 <= j <= |questions|
        invariant cleanedQuestions == CleanUp(questions[..j])
      {
        assert questions[..j + 1][..j] == questions[..j];
        var question := questions[j].question;
        if |question| > 10 && !Contains(ToLower(question), "page") && !Contains(ToLower(question), "section") {
          cleanedQuestions := Put(cleanedQuestions, question, questions[j].options);
        }
        j := j + 1;
      }
      assert questions[..|questions|] == questions;
    }

    /** The text pipeline of `extractQuestions`, from the extracted text on:
        filter, then parse the cleaned text into `extractedQuestions`. */
    method ExtractQuestions(text: string, sliderPercent: nat)
      modifies this`watermarksFiltered, this`extractedQuestions
      ensures extractedQuestions == Parse(FilterText(text, sliderPercent), questionPatternSet)
    {
      var cleanText := FilterWatermarks(text, sliderPercent);
      StoreQuestions(cleanText);
    }

    /** `this.extractedQuestions = this.parseQuestions(cleanText)`. */
    method StoreQuestions(cleanText: string)
      modifies this`extractedQuestions
      ensures extractedQuestions == Parse(cleanText, questionPatternSet)
    {
      extractedQuestions := ParseQuestions(cleanText);
    }
  }
}
