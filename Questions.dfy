/**
 * What `parseQuestions` computes, as functions of its input.
 *
 * The text is split on '\n', every line is trimmed and blank lines are
 * dropped. A state machine then walks the lines. Its state is the result
 * object built so far, the current question text, the options collected
 * for it, and whether a question has been opened. Each line is handled by
 * the first rule that applies:
 *   (a) the question pattern is set and matches: flush, then open a new
 *       question whose text is the line minus its first match, trimmed;
 *   (b) the fallback start patterns match: the same, with the fallback
 *       strip;
 *   (c) inside a question, a line starting `A.`..`D)`: record the option
 *       if its body is non-blank, and consume the line either way;
 *   (d) inside a question with no options yet, a line longer than 5
 *       characters: append it to the text after a space;
 *   otherwise the line is ignored.
 * The end of input flushes once more, and the clean-up keeps the questions
 * longer than 10 characters that mention neither "page" nor "section".
 */
module Questions {
  import opened Strings
  import opened Wrappers
  import opened QuestionPattern

  /** One recorded option: the pair `[letter, text]`. */
  datatype Choice = Choice(letter: char, text: string)

  /** One own property of a result object: the question and its options. */
  datatype Entry = Entry(question: string, options: seq<Choice>)

  // ---------------------------------------------------------------------
  // Result objects: string-keyed JavaScript objects, as entry lists in
  // property order.

  function Keys(es: seq<Entry>): (ks: seq<string>)
    ensures |ks| == |es|
    ensures forall i :: 0 <= i < |es| ==> ks[i] == es[i].question
  {
    seq(|es|, i requires 0 <= i < |es| => es[i].question)
  }

  predicate DistinctKeys(es: seq<Entry>)
  {
    forall i, j :: 0 <= i < j < |es| ==> es[i].question != es[j].question
  }

  /** `obj[k]`: the value of property `k`, if there is one. */
  function Lookup(es: seq<Entry>, k: string): Option<seq<Choice>>
  {
    if es == [] then None
    else if es[0].question == k then Some(es[0].options)
    else Lookup(es[1..], k)
  }

  lemma KeysCons(e: Entry, es: seq<Entry>)
    ensures Keys([e] + es) == [e.question] + Keys(es)
  {
  }

  /** `obj[k] = v`: an existing property keeps its position and takes the
      new value; a new property goes last. */
  function Put(es: seq<Entry>, k: string, v: seq<Choice>): (r: seq<Entry>)
    ensures k in Keys(es) ==> Keys(r) == Keys(es)
    ensures k !in Keys(es) ==> Keys(r) == Keys(es) + [k]
    ensures Lookup(r, k) == Some(v)
    ensures forall k' :: k' != k ==> Lookup(r, k') == Lookup(es, k')
  {
    if es == [] then [Entry(k, v)]
    else
      assert es == [es[0]] + es[1..];
      KeysCons(es[0], es[1..]);
      if es[0].question == k then
        KeysCons(Entry(k, v), es[1..]);
        [Entry(k, v)] + es[1..]
      else
        var tail := Put(es[1..], k, v);
        KeysCons(es[0], tail);
        [es[0]] + tail
  }

  /** `Put` adds no entry other than the one it writes. */
  lemma {:induction false} PutEntries(es: seq<Entry>, k: string, v: seq<Choice>)
    ensures forall e :: e in Put(es, k, v) ==> e in es || e == Entry(k, v)
  {
    if es != [] && es[0].question != k {
      PutEntries(es[1..], k, v);
      assert Put(es, k, v) == [es[0]] + Put(es[1..], k, v);
    }
  }

  /** `Put` keeps the keys distinct. */
  lemma PutDistinct(es: seq<Entry>, k: string, v: seq<Choice>)
    requires DistinctKeys(es)
    ensures DistinctKeys(Put(es, k, v))
  {
    var r := Put(es, k, v);
    var ks, ks' := Keys(es), Keys(r);
    assert forall i, j :: 0 <= i < j < |ks| ==> ks[i] != ks[j];
    forall i, j | 0 <= i < j < |r| ensures r[i].question != r[j].question {
      assert ks'[i] == r[i].question && ks'[j] == r[j].question;
    }
  }

  // ---------------------------------------------------------------------
  // The line state machine.

  datatype ParserState = ParserState(
    questions: seq<Entry>,
    currentQuestion: string,
    currentOptions: seq<Choice>,
    inQuestion: bool)

  const Initial := ParserState([], "", [], false)

  /** The result object after saving the current question: only a question
      whose trimmed text is non-empty is saved, under that text. */
  function Flush(st: ParserState): seq<Entry>
  {
    var key := Trim(st.currentQuestion);
    if key != [] then Put(st.questions, key, st.currentOptions) else st.questions
  }

  /** Rules (a) and (b): does `line` open a new question? */
  predicate IsQuestionStart(line: string, patternSet: bool)
  {
    (patternSet && Test(line)) || FallbackTest(line)
  }

  /** The text a question-start line leaves for the new question. */
  function StartText(line: string, patternSet: bool): string
  {
    if patternSet && Test(line) then Trim(RemoveFirstMatch(line)) else Trim(FallbackStrip(line))
  }

  /** One iteration of the loop. */
  function Step(st: ParserState, line: string, patternSet: bool): ParserState
  {
    if IsQuestionStart(line, patternSet) then
      ParserState(Flush(st), StartText(line, patternSet), [], true)
    else if st.inQuestion && IsOptionLine(line) then
      match MatchOption(line)
      case Some(g) =>
        if Trim(g.body) != [] then st.(currentOptions := st.currentOptions + [Choice(g.letter, Trim(g.body))])
        else st
      case None => st
    else if st.inQuestion && |st.currentOptions| == 0 && |line| > 5 then
      st.(currentQuestion := st.currentQuestion + " " + line)
    else st
  }

  /** The state after the loop has run over `lines`, starting from `st`. */
  function RunFrom(st: ParserState, lines: seq<string>, patternSet: bool): ParserState
  {
    if lines == [] then st
    else Step(RunFrom(st, lines[..|lines| - 1], patternSet), lines[|lines| - 1], patternSet)
  }

  /** `text.split('\n').map(line => line.trim()).filter(line => line)`. */
  function NonBlankLines(ls: seq<string>): (r: seq<string>)
    ensures forall line :: line in r ==> line != [] && IsTrimmed(line)
    ensures |r| <= |ls|
  {
    if ls == [] then []
    else
      var t := Trim(ls[|ls| - 1]);
      NonBlankLines(ls[..|ls| - 1]) + (if t != [] then [t] else [])
  }

  /** The lines kept are exactly the non-empty trimmed input lines: each
      comes from an input line, and no non-blank input line is lost. */
  lemma {:induction false} NonBlankLinesMembers(ls: seq<string>)
    ensures forall line :: line in NonBlankLines(ls) ==> exists l :: l in ls && line == Trim(l)
    ensures forall l :: l in ls && Trim(l) != [] ==> Trim(l) in NonBlankLines(ls)
  {
    if ls != [] {
      var init, last := ls[..|ls| - 1], ls[|ls| - 1];
      NonBlankLinesMembers(init);
      assert ls == init + [last];
      forall line | line in NonBlankLines(ls) ensures exists l :: l in ls && line == Trim(l) {
        if line in NonBlankLines(init) {
          var l :| l in init && line == Trim(l);
          assert l in ls;
        } else {
          assert line == Trim(last) && last in ls;
        }
      }
    }
  }

  /** One line contributes its trimmed text when that is not empty, and
      nothing otherwise. */
  lemma NonBlankLinesSingle(l: string)
    ensures NonBlankLines([l]) == if Trim(l) != [] then [Trim(l)] else []
  {
    assert [l][..0] == [];
  }

  lemma NonBlankLinesSnoc(ls: seq<string>, l: string)
    ensures NonBlankLines(ls + [l]) == NonBlankLines(ls) + NonBlankLines([l])
  {
    NonBlankLinesSingle(l);
    assert (ls + [l])[..|ls|] == ls;
  }

  /** The lines of two blocks are the lines of each, in order. */
  lemma {:induction false} NonBlankLinesConcat(a: seq<string>, b: seq<string>)
    ensures NonBlankLines(a + b) == NonBlankLines(a) + NonBlankLines(b)
    decreases |b|
  {
    if b == [] {
      assert a + b == a;
    } else {
      var init, l := b[..|b| - 1], b[|b| - 1];
      assert b == init + [l];
      assert a + b == (a + init) + [l];
      NonBlankLinesSnoc(a + init, l);
      NonBlankLinesSnoc(init, l);
      NonBlankLinesConcat(a, init);
      SeqAssoc(NonBlankLines(a), NonBlankLines(init), NonBlankLines([l]));
    }
  }

  lemma SeqAssoc(x: seq<string>, y: seq<string>, z: seq<string>)
    ensures (x + y) + z == x + (y + z)
  {
  }

  function InputLines(text: string): seq<string>
  {
    NonBlankLines(Split(text, '\n'))
  }

  /** The clean-up's test on a saved question. */
  predicate KeepQuestion(q: string)
  {
    |q| > 10 && !Contains(ToLower(q), "page") && !Contains(ToLower(q), "section")
  }

  /** The clean-up: copy the kept properties, in order, into a new object. */
  function CleanUp(es: seq<Entry>): seq<Entry>
  {
    if es == [] then []
    else
      var last := es[|es| - 1];
      var c := CleanUp(es[..|es| - 1]);
      if KeepQuestion(last.question) then Put(c, last.question, last.options) else c
  }

  /** The object `parseQuestions` returns. */
  function Parse(text: string, patternSet: bool): seq<Entry>
  {
    CleanUp(Flush(RunFrom(Initial, InputLines(text), patternSet)))
  }

  // ---------------------------------------------------------------------
  // Properties.

  /** An option as the parser records it: letter A to D, body trimmed and
      non-empty. */
  predicate ValidChoice(c: Choice)
  {
    'A' <= c.letter <= 'D' && c.text != [] && IsTrimmed(c.text)
  }

  predicate ValidEntries(es: seq<Entry>)
  {
    && DistinctKeys(es)
    && forall e :: e in es ==>
         && e.question != [] && IsTrimmed(e.question)
         && forall c :: c in e.options ==> ValidChoice(c)
  }

  /** The loop invariant of the parser: saved questions have trimmed,
      non-empty, distinct keys; all options are valid; and before the first
      question start nothing at all has been collected. */
  predicate ValidState(st: ParserState)
  {
    && ValidEntries(st.questions)
    && (forall c :: c in st.currentOptions ==> ValidChoice(c))
    && (!st.inQuestion ==> st.questions == [] && st.currentQuestion == [] && st.currentOptions == [])
  }

  lemma FlushValid(st: ParserState)
    requires ValidState(st)
    ensures ValidEntries(Flush(st))
  {
    var key := Trim(st.currentQuestion);
    if key != [] {
      var r := Put(st.questions, key, st.currentOptions);
      PutEntries(st.questions, key, st.currentOptions);
      PutDistinct(st.questions, key, st.currentOptions);
      forall e | e in r
        ensures e.question != [] && IsTrimmed(e.question) && forall c :: c in e.options ==> ValidChoice(c)
      {
        assert e in st.questions || e == Entry(key, st.currentOptions);
      }
    }
  }

  lemma StepValid(st: ParserState, line: string, patternSet: bool)
    requires ValidState(st)
    ensures ValidState(Step(st, line, patternSet))
  {
    var st' := Step(st, line, patternSet);
    if IsQuestionStart(line, patternSet) {
      FlushValid(st);
      assert st' == ParserState(Flush(st), StartText(line, patternSet), [], true);
    } else if st.inQuestion && IsOptionLine(line) && MatchOption(line).Some? {
      var g := MatchOption(line).value;
      var body := Trim(g.body);
      if body != [] {
        assert st' == st.(currentOptions := st.currentOptions + [Choice(g.letter, body)]);
        assert ValidChoice(Choice(g.letter, body));
      } else {
        assert st' == st;
      }
    } else if st.inQuestion && !IsOptionLine(line) && |st.currentOptions| == 0 && |line| > 5 {
      assert st' == st.(currentQuestion := st.currentQuestion + " " + line);
    } else {
      assert st' == st;
    }
  }

  lemma {:induction false} RunValid(lines: seq<string>, patternSet: bool)
    ensures ValidState(RunFrom(Initial, lines, patternSet))
  {
    if lines != [] {
      RunValid(lines[..|lines| - 1], patternSet);
      StepValid(RunFrom(Initial, lines[..|lines| - 1], patternSet), lines[|lines| - 1], patternSet);
    }
  }

  /** The clean-up keeps only entries of its input that pass the test. */
  lemma {:induction false} CleanUpSound(es: seq<Entry>)
    requires ValidEntries(es)
    ensures ValidEntries(CleanUp(es))
    ensures forall e :: e in CleanUp(es) ==> e in es && KeepQuestion(e.question)
  {
    if es != [] {
      var init := es[..|es| - 1];
      assert ValidEntries(init) by {
        forall e | e in init ensures e in es { }
      }
      CleanUpSound(init);
      var last := es[|es| - 1];
      if KeepQuestion(last.question) {
        PutEntries(CleanUp(init), last.question, last.options);
        PutDistinct(CleanUp(init), last.question, last.options);
      }
    }
  }

  /** Writing a new key appends its entry at the end. */
  lemma {:induction false} PutNew(es: seq<Entry>, k: string, v: seq<Choice>)
    requires k !in Keys(es)
    ensures Put(es, k, v) == es + [Entry(k, v)]
  {
    if es != [] {
      assert es[0].question == Keys(es)[0];
      assert k !in Keys(es[1..]) by {
        forall i | 0 <= i < |es| - 1 ensures Keys(es[1..])[i] == Keys(es)[i + 1] { }
      }
      PutNew(es[1..], k, v);
      assert es == [es[0]] + es[1..];
    }
  }

  /** The entries whose question passes the clean-up's test, in their
      order: a plain filter, with no object semantics. */
  function KeptEntries(es: seq<Entry>): seq<Entry>
  {
    if es == [] then []
    else
      var last := es[|es| - 1];
      KeptEntries(es[..|es| - 1]) + (if KeepQuestion(last.question) then [last] else [])
  }

  /** The filter keeps exactly the entries that pass the test. */
  lemma {:induction false} KeptEntriesMembers(es: seq<Entry>)
    ensures forall e :: e in KeptEntries(es) <==> e in es && KeepQuestion(e.question)
  {
    if es != [] {
      var init := es[..|es| - 1];
      KeptEntriesMembers(init);
      assert es == init + [es[|es| - 1]];
    }
  }

  /** On distinct keys, and so on every object the parser builds, the
      clean-up is the filter: each write adds a new key at the end. */
  lemma {:induction false} CleanUpIsFilter(es: seq<Entry>)
    requires DistinctKeys(es)
    ensures CleanUp(es) == KeptEntries(es)
  {
    if es != [] {
      var init := es[..|es| - 1];
      var last := es[|es| - 1];
      assert DistinctKeys(init);
      CleanUpIsFilter(init);
      if KeepQuestion(last.question) {
        KeptEntriesMembers(init);
        assert last.question !in Keys(KeptEntries(init)) by {
          var ks := KeptEntries(init);
          forall i | 0 <= i < |ks| ensures Keys(ks)[i] != last.question {
            assert ks[i] in ks;
            var t :| 0 <= t < |init| && init[t] == ks[i];
            assert es[t] == init[t];
          }
        }
        PutNew(KeptEntries(init), last.question, last.options);
      }
    }
  }

  /** On distinct keys the clean-up keeps an entry exactly when its question
      passes the test. */
  lemma CleanUpKeepsExactly(es: seq<Entry>)
    requires DistinctKeys(es)
    ensures forall e :: e in CleanUp(es) <==> e in es && KeepQuestion(e.question)
  {
    CleanUpIsFilter(es);
    KeptEntriesMembers(es);
  }

  /** The object `parseQuestions` returns is the saved questions filtered by
      the clean-up's test, in the order they were first saved. */
  lemma ParseIsFilter(text: string, patternSet: bool)
    ensures Parse(text, patternSet) == KeptEntries(Flush(RunFrom(Initial, InputLines(text), patternSet)))
  {
    var st := RunFrom(Initial, InputLines(text), patternSet);
    RunValid(InputLines(text), patternSet);
    FlushValid(st);
    CleanUpIsFilter(Flush(st));
  }

  /** Every question `parseQuestions` returns is trimmed, longer than 10
      characters and mentions neither "page" nor "section" in any case; the
      questions are distinct; every option has a letter A to D and a
      trimmed non-empty body. */
  lemma ParseWellFormed(text: string, patternSet: bool)
    ensures ValidEntries(Parse(text, patternSet))
    ensures forall e :: e in Parse(text, patternSet) ==>
      && IsTrimmed(e.question)
      && |e.question| > 10
      && !Contains(ToLower(e.question), "page")
      && !Contains(ToLower(e.question), "section")
      && forall c :: c in e.options ==> 'A' <= c.letter <= 'D' && c.text != [] && IsTrimmed(c.text)
  {
    var st := RunFrom(Initial, InputLines(text), patternSet);
    RunValid(InputLines(text), patternSet);
    FlushValid(st);
    CleanUpSound(Flush(st));
  }

  /** The empty text, and any text without a question start, yield the
      empty object. */
  lemma EmptyTextNoQuestions(patternSet: bool)
    ensures Parse("", patternSet) == []
  {
    assert Split("", '\n') == [""];
    assert InputLines("") == [];
  }

  /** Lines that do not start a question leave the initial state alone. */
  lemma {:induction false} NoStartKeepsInitial(pre: seq<string>, patternSet: bool)
    requires forall line :: line in pre ==> !IsQuestionStart(line, patternSet)
    ensures RunFrom(Initial, pre, patternSet) == Initial
  {
    if pre != [] {
      assert forall line :: line in pre[..|pre| - 1] ==> line in pre;
      NoStartKeepsInitial(pre[..|pre| - 1], patternSet);
    }
  }

  /** The loop over `lines` and then `line` takes one more step. */
  lemma RunSnoc(st: ParserState, lines: seq<string>, line: string, patternSet: bool)
    ensures RunFrom(st, lines + [line], patternSet) == Step(RunFrom(st, lines, patternSet), line, patternSet)
  {
    assert (lines + [line])[..|lines|] == lines;
  }

  lemma {:induction false} RunAppend(st: ParserState, a: seq<string>, b: seq<string>, patternSet: bool)
    ensures RunFrom(st, a + b, patternSet) == RunFrom(RunFrom(st, a, patternSet), b, patternSet)
  {
    if b != [] {
      var init, line := b[..|b| - 1], b[|b| - 1];
      assert b == init + [line];
      assert a + b == (a + init) + [line];
      RunAppend(st, a, init, patternSet);
      RunSnoc(st, a + init, line, patternSet);
      RunSnoc(RunFrom(st, a, patternSet), init, line, patternSet);
    } else {
      assert a + b == a;
    }
  }

  /** Nothing before the first question-start line contributes text or
      options: removing those lines changes nothing. */
  lemma LinesBeforeFirstQuestionIgnored(pre: seq<string>, post: seq<string>, patternSet: bool)
    requires forall line :: line in pre ==> !IsQuestionStart(line, patternSet)
    ensures RunFrom(Initial, pre + post, patternSet) == RunFrom(Initial, post, patternSet)
  {
    RunAppend(Initial, pre, post, patternSet);
    NoStartKeepsInitial(pre, patternSet);
  }

  lemma NoQuestionStartNoQuestions(text: string, patternSet: bool)
    requires forall line :: line in InputLines(text) ==> !IsQuestionStart(line, patternSet)
    ensures Parse(text, patternSet) == []
  {
    NoStartKeepsInitial(InputLines(text), patternSet);
  }

  /** A question-start line saves the current question, resets the options
      to empty and makes the line minus its first pattern match the new
      text. */
  lemma StartStep(st: ParserState, line: string)
    requires Test(line)
    ensures var m := FirstMatch(line).value;
      Step(st, line, true) == ParserState(Flush(st), Trim(line[..m.start] + line[m.end..]), [], true)
  {
  }

  /** Any other line keeps the saved questions; it may add one valid option
      while a question is open, or append itself to the text while a
      question is open, has no options and the line is longer than 5
      characters, and does nothing else. */
  lemma OtherStep(st: ParserState, line: string, patternSet: bool)
    requires !IsQuestionStart(line, patternSet)
    ensures var st' := Step(st, line, patternSet);
      && st'.questions == st.questions
      && st'.inQuestion == st.inQuestion
      && (|| st' == st
          || (&& st.inQuestion
              && st'.currentQuestion == st.currentQuestion
              && |st'.currentOptions| == |st.currentOptions| + 1
              && st'.currentOptions[..|st.currentOptions|] == st.currentOptions
              && ValidChoice(st'.currentOptions[|st.currentOptions|]))
          || (&& st.inQuestion && st.currentOptions == [] && |line| > 5
              && st'.currentOptions == []
              && st'.currentQuestion == st.currentQuestion + " " + line))
  {
    var st' := Step(st, line, patternSet);
    if st.inQuestion && IsOptionLine(line) && MatchOption(line).Some? {
      var g := MatchOption(line).value;
      if Trim(g.body) != [] {
        assert st'.currentOptions[..|st.currentOptions|] == st.currentOptions;
      }
    }
  }

  /** An option line of an open question with text after its marker adds
      exactly one option: the line's letter and the trimmed text after the
      marker, which is never empty. Nothing else changes. */
  lemma OptionLineStep(st: ParserState, line: string, patternSet: bool)
    requires !IsQuestionStart(line, patternSet) && st.inQuestion && IsOptionLine(line)
    requires SpaceRunEnd(line, 2) < |line|
    ensures var k := SpaceRunEnd(line, 2);
      var text := Trim(line[k..LineEnd(line, k)]);
      && text != []
      && Step(st, line, patternSet) == st.(currentOptions := st.currentOptions + [Choice(line[0], text)])
  {
    OptionBodyNonBlank(line);
  }

  /** An option line of an open question with only white space after its
      marker changes nothing: what `(.+)` captures trims to nothing. */
  lemma BlankOptionLineStep(st: ParserState, line: string, patternSet: bool)
    requires !IsQuestionStart(line, patternSet) && st.inQuestion && IsOptionLine(line)
    requires SpaceRunEnd(line, 2) == |line|
    ensures Step(st, line, patternSet) == st
  {
    if MatchOption(line).Some? {
      BacktrackedBodyIsBlank(line);
    }
  }

  /** Any other line of an open question that has no options yet and is
      longer than 5 characters is appended to the text after one space. */
  lemma ContinuationStep(st: ParserState, line: string, patternSet: bool)
    requires !IsQuestionStart(line, patternSet) && st.inQuestion && !IsOptionLine(line)
    requires st.currentOptions == [] && |line| > 5
    ensures Step(st, line, patternSet) == st.(currentQuestion := st.currentQuestion + " " + line)
  {
  }

  /** Every remaining line is ignored: a line before the first question, or
      a non-option line once options exist or of at most 5 characters. */
  lemma IgnoredStep(st: ParserState, line: string, patternSet: bool)
    requires !IsQuestionStart(line, patternSet)
    requires !st.inQuestion || (!IsOptionLine(line) && (st.currentOptions != [] || |line| <= 5))
    ensures Step(st, line, patternSet) == st
  {
  }

  /** The line `A) C:\` has no digit, so it starts no question. */
  lemma BackslashLineNoStart(line: string, patternSet: bool)
    requires line == "A) C:\\"
    ensures !IsQuestionStart(line, patternSet)
  {
    NoDigitNoMatch(line);
  }

  /** The option line `A) C:\` of an open question is recorded as the
      option `("A", "C:\")`. */
  lemma BackslashOptionRecorded(st: ParserState, patternSet: bool)
    requires st.inQuestion
    ensures Step(st, "A) C:\\", patternSet) == st.(currentOptions := st.currentOptions + [Choice('A', "C:\\")])
  {
    BackslashLineNoStart("A) C:\\", patternSet);
    BackslashOptionMatch();
    TrimOfTrimmed("C:\\");
  }

  /** Last write wins: saving a question whose text is already a key keeps
      the key's position and replaces its options; a question whose trimmed
      text is empty is not saved and its options are lost. */
  lemma FlushOverwrites(st: ParserState)
    ensures Trim(st.currentQuestion) == [] ==> Flush(st) == st.questions
    ensures Trim(st.currentQuestion) != [] && Trim(st.currentQuestion) in Keys(st.questions) ==>
      Keys(Flush(st)) == Keys(st.questions) &&
      Lookup(Flush(st), Trim(st.currentQuestion)) == Some(st.currentOptions)
  {
  }

  /** The leftmost match in `Q5. text` is the label `Q5`. */
  lemma QLabelFirstMatch()
    ensures FirstMatch("Q5. text") == Some(Span(0, 2))
  {
    var line := "Q5. text";
    assert NumberedAt(line, 0) == None;
    assert SpaceRunEnd(line, 1) == 1 && DigitRunEnd(line, 1) == 2;
    assert QLabelAt(line, 0) == Some(2);
    assert MatchAt(line, 0) == Some(2);
  }

  /** `Q5. text` is a question start whose text is `. text`. */
  lemma QLabelStartText()
    ensures Test("Q5. text") && StartText("Q5. text", true) == ". text"
  {
    var line := "Q5. text";
    QLabelFirstMatch();
    assert line[..0] + line[2..] == ". text";
    TrimOfTrimmed(". text");
  }

  /** Only the label is removed: `Q5. text` opens the question `. text`,
      because the pattern's `Q\s*\d+` alternative stops before the dot. */
  lemma QLabelLeavesDot(st: ParserState)
    ensures Step(st, "Q5. text", true) == ParserState(Flush(st), ". text", [], true)
  {
    QLabelStartText();
  }

  /** The leftmost match in `A. 3.5` is the numbered label `3.`: no
      alternative matches at the first three positions. */
  lemma DecimalFirstMatch()
    ensures FirstMatch("A. 3.5") == Some(Span(3, 5))
  {
    var line := "A. 3.5";
    assert MatchAt(line, 0) == None;
    assert MatchAt(line, 1) == None;
    assert MatchAt(line, 2) == None;
    assert NumberedAt(line, 3) == Some(5);
  }

  /** `A. 3.5` is a question start whose text is `A. 5`. */
  lemma DecimalStartText()
    ensures Test("A. 3.5") && StartText("A. 3.5", true) == "A. 5"
  {
    var line := "A. 3.5";
    DecimalFirstMatch();
    assert line[..3] + line[5..] == "A. 5";
    TrimOfTrimmed("A. 5");
  }

  /** Rule (a) comes before rule (c): the option line `A. 3.5` opens a new
      question, because `3.` matches the numbered alternative, and its text
      is `A. 5`. */
  lemma OptionWithDecimalStartsQuestion(st: ParserState)
    ensures Step(st, "A. 3.5", true) == ParserState(Flush(st), "A. 5", [], true)
  {
    DecimalStartText();
  }
}
