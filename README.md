# Worksheet question extractor: the text pipeline

The extractor is a browser application. It turns a scanned or PDF worksheet
into a mapping from question text to its multiple-choice options. After OCR
or PDF text extraction, all of its logic is two passes over plain text, and
this project models those passes:

- **`filterWatermarks`**. It splits the text into lines and counts how often
  each trimmed, lowercased line occurs. It then drops these lines:
  - blank lines;
  - lines that mention a watermark keyword;
  - lines that repeat too often for the slider's sensitivity;
  - short all-caps stamps;
  - very short lines.

  The surviving original lines are joined back together. A counter on the
  extractor object goes up for every keyword, frequency or caps drop.
- **`parseQuestions`**. It runs a line state machine over the trimmed,
  non-blank lines:
  - a line that matches the question pattern opens a new question (the
    pattern is `/(\d+[\.\)]|\bQ\s*\d+|\bQuestion\s+\d+)/i`, or the fallback
    pattern when none is set);
  - `A.`–`D)` lines add options;
  - longer lines continue the question text while it has no options yet.

  Questions are saved into a JavaScript object, which keeps insertion order
  and where the last write wins. A clean-up pass then keeps only the long
  questions that are not page or section headers.
- **The "Dictionary" tab formatting**. It prints the result as a Python
  dictionary literal.

Module layout:

| module | what it holds |
|---|---|
| `Strings` | JavaScript string primitives on `seq<char>`: `trim` (the exact ECMAScript white-space set), ASCII case mapping, `includes`, and `split`/`join` with their round trip. |
| `QuestionPattern` | The question regular expression as an explicit leftmost scanner: alternatives are tried in order at each position, with greedy `\d+`/`\s*` and `\b` over `[A-Za-z0-9_]`. Each scanner is proved against a declarative description of the words the pattern matches. Also the fallback patterns and the option patterns, including the backtracking of `\s*` in `^([A-D])[.)]\s*(.+)`. |
| `Watermark` | The filter as functions: the frequency table, the per-line verdict, and the kept lines and drop counts as folds. Lemmas cover subsequence, cleanliness, the global frequency verdict and accounting. |
| `Questions` | The parser as functions: a `Step` per line folded by `RunFrom`, flushes through an ordered-object `Put`, and the clean-up. Lemmas cover validity of the state and of the output, the lines before the first question, and last-write-wins. |
| `Extractor` | `class WorksheetExtractor` with the three fields the pipeline touches. Its methods keep the source's loops and locals, and each is proved to compute the functions above. |
| `Format` | The Python dictionary literal, with a model of Python's reading of a string literal. |

The source functions are modelled by these Dafny functions:
- `filterWatermarks` by `Watermark.Table`, `Watermark.Classify` and `Watermark.FilterText`;
- `parseQuestions` by `Questions.Step` (one loop iteration), `Questions.RunFrom`, `Questions.Flush`, `Questions.CleanUp` and `Questions.Parse`;
- the "Dictionary" tab by `Format.FormatChoice`, `Format.FormatOptions`, `Format.FormatEntry` and `Format.PythonDict`.

The imperative versions in `Extractor` are proved equal to them. The Model table lists the members whose contracts state properties.

The slider's sensitivity is an integer percent `p`, so `count > max(2, 5 * p / 100)`
becomes `100 * count > max(200, 5 * p)` (`Watermark.ThresholdMeaning` proves the
two agree).

A few facts about the parser (script.js:369-433) that the model follows:
- options are recognised only when they start a line of their own, never
  inline within a question line;
- question text keeps its internal white space, and only the line ends are
  trimmed;
- no key longer than 10 characters is dropped for its length (the clean-up
  still drops keys that mention `page` or `section`);
- `page` and `section` are tested only in the final clean-up, never on
  continuation lines.

## Model

| member | source | states |
|---|---|---|
| Strings.Trim | script.js:329 | `trim()` removes exactly the leading and trailing white space: the result is a trimmed slice of the input with white space only after it, and it is empty exactly when the line is all white space. |
| Strings.TrimIdempotent | script.js:382-383 | Trimming an already trimmed question text changes nothing. |
| Strings.Split | script.js:322 | `split('\n')` gives at least one piece, no piece contains the separator, and joining the pieces with it gives the text back. |
| Strings.SplitJoin | script.js:366 | Splitting a join of separator-free pieces gives the pieces back. |
| Strings.ContainsFrom | script.js:343 | `includes` holds exactly when the substring occurs at some position. |
| QuestionPattern.DigitRunEnd | script.js:212 | Greedy `\d+`: the end of the maximal digit run. |
| QuestionPattern.SpaceRunEnd | script.js:212 | Greedy `\s*`: the end of the maximal white-space run. |
| QuestionPattern.NumberedAt | script.js:212 | Alternative `\d+[\.\)]` at a position: it matches if and only if a numbered word starts there, and then it ends where every such word ends (the digit run and one separator). |
| QuestionPattern.NumberedEnds | script.js:212 | All numbered words at one position end in the same place. |
| QuestionPattern.QLabelAt | script.js:212 | Alternative `\bQ\s*\d+` (case-insensitive): a found end closes a `Q`-label word that starts at a word boundary and stops at the end of the digit run; whenever such a word starts there the alternative succeeds, and it ends no earlier than any such word (greedy `\d+`). |
| QuestionPattern.QLabelEnds | script.js:212 | Every `Q`-label word at a position ends inside the digit run after the `Q` and its white space. |
| QuestionPattern.QuestionLabelAt | script.js:212 | Alternative `\bQuestion\s+\d+` (case-insensitive): the same for `Question`-label words: a found end closes such a word at a word boundary, it succeeds whenever one starts there, and it takes the longest. |
| QuestionPattern.QuestionLabelEnds | script.js:212 | Every `Question`-label word at a position ends inside the digit run after `question` and its white space. |
| QuestionPattern.LabelHead | script.js:212 | A word of either `Q` alternative starts with `Q` or `q`, and a `Question` word has `u` or `U` second. |
| QuestionPattern.DigitStartsNoLabel | script.js:212 | A digit starts no word of the two `Q` alternatives, so when `\d+[\.\)]` matches no other alternative can. |
| QuestionPattern.QLabelExcludesQuestion | script.js:212 | Where `Q\s*\d+` succeeds no `Question` word starts, so at most one alternative matches at a position. |
| QuestionPattern.MatchAt | script.js:212 | The three alternatives in order: a match when some alternative matches, no match at all otherwise, and the match found ends no earlier than any word of the pattern at that position. |
| QuestionPattern.SearchFrom | script.js:212 | The leftmost match at or after a position: nothing matches before it, no match at its start ends later, and no result means nothing matches. |
| QuestionPattern.FirstMatch | script.js:386 | What `replace` removes is the leftmost match of the pattern, taken as long as any match at that position. |
| QuestionPattern.FirstMatchIff | script.js:212 | The search reports a span if and only if it is a match, nothing matches further left, and no match at its start is longer. |
| QuestionPattern.TestIffSomeMatch | script.js:380 | `test` holds if and only if some substring matches the pattern. |
| QuestionPattern.RemoveFirstMatch | script.js:386 | `replace` without `g` leaves a non-matching line alone and otherwise removes exactly the span of the leftmost-longest match, which shortens the line. |
| QuestionPattern.RemoveFirstMatchGreedy | script.js:212 | In `Q12 x` the match is `Q12`, not `Q1`, so `replace` leaves ` x`. |
| QuestionPattern.FallbackMarkerEnd | script.js:398 | The anchored marker `\d+[\.\)]` or `Q\s*\d+[:\.\)]` (case-insensitive) at the start of a line: a found end closes a marker, and whenever a prefix is a marker it is the one found. |
| QuestionPattern.FallbackMarkerShape | script.js:398 | A marker prefix is either the numbered word or a `Q` marker that ends right after the digit run. |
| QuestionPattern.FallbackStrip | script.js:398 | The anchored fallback `replace` removes exactly a marker at the start of the line and all white space after it, and leaves a line without such a marker unchanged. |
| QuestionPattern.MatchHasDigit | script.js:212 | Every word of the question pattern holds a digit. |
| QuestionPattern.NoDigitNoMatch | script.js:380-393 | A line with no digit fails both the pattern test and the fallback test. |
| QuestionPattern.FallbackImpliesTest | script.js:380-401 | Every line the fallback test accepts is accepted by the pattern, so with the pattern set the fallback branch is never taken. |
| QuestionPattern.LineEnd | script.js:406 | Where `.+` stops: the first line terminator. |
| QuestionPattern.BacktrackStart | script.js:406 | Where `(.+)` starts when `\s*` gives characters back: the last non-terminator in the white-space run, with only line terminators after it; no start exactly when the run holds only line terminators. |
| QuestionPattern.MatchOption | script.js:406 | `match(/^([A-D])[\.\)]\s*(.+)/)` fails on a line that is not an option line; on an option line with text after the marker, group 1 is the letter and group 2 runs from the first non-space character after the marker to the first line terminator; any group 2 is non-empty text without line terminators. |
| QuestionPattern.BacktrackedBodyIsBlank | script.js:406-407 | When only white space follows the marker, any group 2 trims to nothing, so no option is pushed. |
| QuestionPattern.OptionBacktracksOneSpace | script.js:406 | On `A.  ` the expression still matches: `\s*` gives back one character and group 2 is the last space. |
| QuestionPattern.BackslashOptionMatch | script.js:406 | On `A) C:\` group 1 is `A` and group 2 is `C:\`. |
| QuestionPattern.OptionBodyNonBlank | script.js:405-408 | When text follows the marker, the match succeeds and group 2 trims to a non-empty body. |
| Watermark.ThresholdMeaning | script.js:349 | The integer test `100 * count > max(200, 5p)` agrees with `count > Math.max(2, 5 * (p / 100))` over the reals. |
| Watermark.ThresholdEnds | script.js:349 | At sensitivity 0 a key must occur more than 2 times to be dropped, and at sensitivity 1 more than 5 times. |
| Watermark.TableCounts | script.js:328-333 | The first pass records exactly the keys longer than 3 characters that occur, each with its number of occurrences. |
| Watermark.TableLookup | script.js:349 | For a line of the input, `textCounts[trimmed]` (with `undefined` read as 0) is the line's frequency in the whole input. |
| Watermark.SecondPassAt | script.js:336-364 | The same step in terms of the table the first pass built. |
| Watermark.KeptIsSubsequence | script.js:322-366 | The kept lines are a subsequence of the input lines, in order and unmodified. |
| Watermark.KeptLinesClean | script.js:340-361 | Every kept line is an input line whose trimmed text has at least 3 characters, that mentions no watermark keyword, is not a short all-caps line, and whose key is not over the repeat threshold. |
| Watermark.CleanLineKept | script.js:340-361 | Conversely, every input line whose trimmed text has at least 3 characters, that mentions no keyword, is not a short all-caps line and whose key is not over the repeat threshold is kept. |
| Watermark.FrequentNeverKept | script.js:349-352 | A line whose key is longer than 3 characters and occurs over the threshold anywhere in the input is never kept. |
| Watermark.SameKeySameVerdict | script.js:337-352 | Lines with the same trimmed, lowercased key get the same blank, keyword and frequency verdicts. |
| Watermark.Accounting | script.js:340-363 | Every line is kept, dropped and counted, or dropped silently: the three numbers add up to the number of lines. |
| Watermark.DigitsLineIsCaps | script.js:355 | A line with no letters, such as `12345`, equals its upper-case form and counts as a caps stamp. |
| Questions.Put | script.js:383 | Assigning an object property: an existing key keeps its position, a new key is appended, the key now holds the value, and every other key holds what it held. |
| Questions.PutEntries | script.js:383 | After an assignment every entry is an old entry or the new one. |
| Questions.PutDistinct | script.js:383 | Assignment keeps keys distinct. |
| Questions.PutNew | script.js:383 | Assigning a key the object does not have appends its entry at the end. |
| Questions.NonBlankLines | script.js:371 | `map(trim).filter(line => line)` leaves only non-empty trimmed lines, at most one per input line. |
| Questions.NonBlankLinesMembers | script.js:371 | The lines kept are exactly the non-empty trimmed input lines: each comes from an input line, and every non-blank input line contributes its trimmed text. |
| Questions.NonBlankLinesSingle | script.js:371 | One line contributes its trimmed text if that is non-empty, and nothing otherwise. |
| Questions.NonBlankLinesConcat | script.js:371 | The kept lines of two blocks are those of the first followed by those of the second, so input order is kept. |
| Questions.FlushValid | script.js:382-383 | Saving the current question of a valid state leaves distinct, non-empty, trimmed keys with valid options. |
| Questions.StepValid | script.js:376-417 | Each line preserves the parser's state invariant: before the first question nothing is collected, saved keys are valid, and every option has a letter A–D and a trimmed non-empty body. |
| Questions.RunValid | script.js:376-417 | The invariant holds after any sequence of lines. |
| Questions.CleanUpSound | script.js:424-430 | The clean-up keeps only entries it was given whose keys are longer than 10 characters and mention neither `page` nor `section` in any case. |
| Questions.KeptEntriesMembers | script.js:424-430 | The reference filter keeps an entry exactly when it passes the clean-up test. |
| Questions.CleanUpIsFilter | script.js:424-430 | On distinct keys the clean-up equals the order-preserving filter by its test: kept keys in their original order. |
| Questions.CleanUpKeepsExactly | script.js:424-430 | On distinct keys an entry survives the clean-up if and only if it was given and passes the test. |
| Questions.ParseIsFilter | script.js:369-433 | The result is the saved questions, in the order first saved, filtered by the clean-up test. |
| Questions.ParseWellFormed | script.js:369-433 | Every key of the result is trimmed, longer than 10 characters, and free of `page` and `section` in any case; keys are distinct; every option has a letter A–D and a trimmed non-empty body. |
| Questions.EmptyTextNoQuestions | script.js:369-433 | Empty text yields an empty object. |
| Questions.NoStartKeepsInitial | script.js:374-417 | Lines that do not start a question leave the initial state untouched: nothing before the first question contributes text or options. |
| Questions.RunAppend | script.js:376-417 | Running over two blocks of lines is running over the first, then over the second. |
| Questions.LinesBeforeFirstQuestionIgnored | script.js:374-417 | Lines before the first question start have no effect on the result. |
| Questions.NoQuestionStartNoQuestions | script.js:369-433 | Text without any question-start line yields an empty object. |
| Questions.StartStep | script.js:380-389 | With the pattern set, a matching line saves the current question, resets the options to empty and makes the line minus its first match, trimmed, the new text. |
| Questions.OtherStep | script.js:404-416 | Any other line keeps the saved questions and either changes nothing, adds one valid option while a question is open, or appends `' ' + line` while a question is open with no options and the line is longer than 5. |
| Questions.OptionLineStep | script.js:405-409 | In an open question, an option line with text after its marker adds exactly one option: the line's first letter and the trimmed text after the marker's white space, which is never empty. Nothing else changes. |
| Questions.BlankOptionLineStep | script.js:405-409 | In an open question, an option line with only white space after its marker changes nothing. |
| Questions.ContinuationStep | script.js:413-415 | In an open question with no options, any other line longer than 5 characters is appended to the text after one space. |
| Questions.IgnoredStep | script.js:404-416 | Every other line changes nothing: any line before the first question, and a non-option line once options exist or of at most 5 characters. |
| Questions.FlushOverwrites | script.js:382-383 | A question whose trimmed text is empty is not saved; one whose text is already a key keeps the key's position and replaces its options. |
| Questions.QLabelFirstMatch | script.js:212 | The leftmost match of the question pattern in `Q5. text` is `Q5`, the label without its dot. |
| Questions.DecimalFirstMatch | script.js:212 | The leftmost match in `A. 3.5` is `3.`: no alternative matches in `A. `. |
| Questions.QLabelStartText | script.js:386 | `Q5. text` passes the question test and leaves `. text` once the match is removed and the rest trimmed. |
| Questions.DecimalStartText | script.js:386 | `A. 3.5` passes the question test and leaves `A. 5` once the match is removed and the rest trimmed. |
| Questions.QLabelLeavesDot | script.js:386 | `Q5. text` opens the question `. text`: only `Q5` is removed. |
| Questions.OptionWithDecimalStartsQuestion | script.js:380-411 | The option line `A. 3.5` opens the question `A. 5`, because the question test runs before the option test. |
| Extractor.WorksheetExtractor.constructor | script.js:2-9 | A new extractor has no question pattern, no extracted questions and a zero counter. |
| Extractor.WorksheetExtractor.AnalyzeSample | script.js:170-180 | Analysing a sample sets the question pattern exactly when a sample was chosen and its image loads; otherwise the pattern stays as it was, and nothing else changes. |
| Extractor.WorksheetExtractor.CountKeys | script.js:327-333 | The first-pass loop builds the table of keys longer than 3 characters with their exact occurrence counts. |
| Extractor.WorksheetExtractor.FilterWatermarks | script.js:320-367 | Returns the kept lines joined by `'\n'` and adds exactly the number of keyword, frequency and caps drops to `watermarksFiltered`. |
| Extractor.WorksheetExtractor.SecondPass | script.js:336-364 | The second-pass loop produces the kept lines and counts the counted drops. |
| Extractor.WorksheetExtractor.FilterLine | script.js:336-364 | The callback for one line: it appends the line exactly when its verdict is "kept" and increments the counter exactly on a keyword, frequency or caps drop. |
| Extractor.WorksheetExtractor.ParseQuestions | script.js:369-433 | Returns the parse of the text with the object's current question pattern. |
| Extractor.WorksheetExtractor.ParseLines | script.js:376-417 | The `for` loop leaves the locals in the state the per-line step reaches. |
| Extractor.WorksheetExtractor.ParseLine | script.js:377-416 | One iteration of the loop is one parser step. |
| Extractor.WorksheetExtractor.CleanUpQuestions | script.js:424-430 | The clean-up loop computes the clean-up. |
| Extractor.WorksheetExtractor.ExtractQuestions | script.js:248-252 | Extraction stores the parse of the filtered text in `extractedQuestions`. |
| Extractor.WorksheetExtractor.StoreQuestions | script.js:252 | `this.extractedQuestions` becomes the parse of the cleaned text. |
| Format.EscapeQuotes | script.js:465-467 | `replace(/"/g, '\\"')` adds one character per quote, and every quote in its output has a backslash in front of it. |
| Format.UnescapeEscape | script.js:465-467 | Turning each backslash-quote pair back into a quote recovers the text. |
| Format.BackslashOptionTuple | script.js:465 | As written, the option `C:\` prints as the tuple `("A", "C:\")`. |
| Format.BackslashOptionUnclosed | script.js:465 | Python finds no closing quote in `C:\")`: the backslash escapes the only quote. |
| Format.EscapeQuotesBackslashBreaks | script.js:465 | As written, the option text `C:\` becomes the literal `"C:\"`, which Python does not read as a closed string; the option is a valid one that the parser records. |
| Questions.BackslashLineNoStart | script.js:380-393 | The line `A) C:\` has no digit, so neither question test accepts it. |
| Questions.BackslashOptionRecorded | script.js:405-409 | While a question is open, the line `A) C:\` starts no question and adds the option `("A", "C:\")`. |
| Format.EscapeChar | script.js:465-467 | The corrected escape of one character: a character other than backslash, quote and line break stands for itself, and each of those four becomes a backslash and a letter that Python reads as that character. |
| Format.EscapePythonReadsBack | script.js:465-467 | With backslash, quote and line breaks escaped, Python reads the literal back as the text and stops at its closing quote. |
| Format.QuotesOnlyEnoughWhenPlain | script.js:465-467 | On a text with no backslash and no line break, the as-written escaping (quotes only) gives the same literal as the corrected one. |
| Format.EscapeReadsBack | script.js:465-467 | Python reads an escaped text back up to its closing quote: always with the corrected escaping, and as written when the text is plain. |
| Format.FormatOptions | script.js:464-466 | In either escaping, an empty option list prints as `[]`, and every option list is in brackets. |
| Format.FormatOptionsSingle | script.js:465 | One option prints as its tuple `("letter", "text")` in brackets. |
| Format.FormatOptionsAppend | script.js:465 | Each further option adds `, ` and its tuple before the closing bracket, so the list is the tuples in order joined by `, `. |
| Format.ChoiceLetterReadsBack | script.js:465 | In either escaping, the first string of an option tuple reads back in Python as the option's letter. |
| Format.ChoiceTextReadsBack | script.js:465 | The second string of an option tuple reads back in Python as the option text: always with the corrected escaping, and as written when the text is plain. |
| Format.ChoiceReadsBack | script.js:465 | Both strings of an option tuple read back in Python, the letter and the option text, under the same condition. |
| Format.EntryKeyReadsBack | script.js:467 | The key of an entry line reads back in Python as the question: always with the corrected escaping, and as written when the question is plain. |
| Format.EntryKeyThenColon | script.js:467 | In either escaping, the escaped key is followed by its closing quote and the colon. |
| Format.PythonDictEmpty | script.js:470 | With no questions the literal is `{`, an empty line and `}`. |
| Format.PythonDictSingle | script.js:470 | One question prints as its entry line between `{` and `}` on their own lines. |
| Format.PythonDictAppend | script.js:468-470 | Each further question adds `,`, a line break and its entry line before the closing line, so the literal holds the entry lines in key order joined by `,` and a line break. |

## Left out

- The DOM and the user interface are not modelled: file upload, drag and drop, tabs, progress bars, notifications, the pattern preview and the questions preview (script.js:14-160, 224-234, 435-456, 474-507, 558-627).
- The text extraction is not modelled: OCR with Tesseract, PDF text with pdf.js, canvas rendering and `fileToImageData` (script.js:194-207, 265-318). They are asynchronous foreign calls. The extracted text is a parameter of `ExtractQuestions`.
- The parts of `detectPatterns` other than the question pattern are not modelled (script.js:209-222). Its only effect on the pipeline is that `this.questionPattern` becomes the fixed pattern, so the field is the boolean `questionPatternSet`.
- Extractor.WorksheetExtractor.AnalyzeSample: models only the assignment and the two ways it is skipped: the early return when no sample is chosen (script.js:171), and a sample image that never loads, so the promise at script.js:194-206 never resolves. Both are boolean parameters; the image itself is not read, and the `mcqPattern` and display updates are not modelled.
- Library polling, `formatFileSize`, clipboard, download and `JSON.stringify` are not modelled (script.js:20-27, 162-168, 509-556). They are timers, floating point and browser APIs.
- The numbered list of the "List" tab (script.js:459) is not part of this model. It is display text over the key order that `Parse` already fixes.
- Extractor.WorksheetExtractor.FilterWatermarks: the slider is a parameter, an integer percent, rather than a read of the DOM element's value divided by 100.
- Extractor.WorksheetExtractor.ExtractQuestions: the `try`/`catch`, progress updates and asynchrony are left out, and so is interleaving of concurrent runs on the shared counter.
- Extractor.WorksheetExtractor.ExtractQuestions: its contract does not repeat how the watermark counter grows; that is stated by `FilterWatermarks`, which it calls once, and stating both facts in one contract made the proof too costly for the verifier.
- Strings.ToLower and Strings.ToUpper map only ASCII letters. Full Unicode case mapping is not modelled. The result can differ from JavaScript for a line with non-ASCII letters in four places: the line key that the frequency table counts and the keyword `includes` test read (script.js:329-343; for example `WATERMAR\u212A`, with a Kelvin sign, lowercases in JavaScript to a key containing `watermark` but not in the model), the caps test, and the `page`/`section` test.
- String lengths count Unicode scalar values. JavaScript counts UTF-16 code units, so the length tests (`> 3` in the first pass, `< 2`, `< 3`, `4 < length < 25`, `> 5`, `> 10`) can differ for characters outside the Basic Multilingual Plane.
- Watermark.Table: `textCounts` is a plain map. In JavaScript, a key that names an `Object.prototype` member (such as `constructor`) starts from that member instead of `undefined`.
- Questions.Put: keys keep insertion order. JavaScript enumerates integer-like keys first, but those keys have at most 10 characters and the clean-up drops every such key, so the result is unaffected.
- Format.FormatOptions: its own contract gives only the empty list and the brackets. The tuples in order, joined by `, `, are stated by `Format.FormatOptionsSingle` and `Format.FormatOptionsAppend`.
- Format.ReadLiteral: reads only the escapes `\\`, `\"`, `\n` and `\r` of Python string literals. Other escapes give `None`. The option letter is printed unescaped, and `Format.ChoiceLetterReadsBack` covers only the letters A–D that the parser records.

## Findings

| source | as written | input that shows it | evidently intended | confidence | as-written member | corrected member |
|---|---|---|---|---|---|---|
| script.js:465-467 | Question and option texts are escaped only by putting a backslash before each `"`. Backslashes and line breaks pass through unchanged. | Under an open question, the option line `A) C:\` is recorded as `("A", "C:\")` and prints as the tuple `("A", "C:\")`: the final backslash escapes the closing quote, so the Python literal never closes. Option texts pass no length or keyword filter. | A Python string literal that reads back as the text. | not executed; medium | Format.EscapeQuotesBackslashBreaks | Format.EscapePythonReadsBack |

`Format.FormatChoice`, `Format.FormatOptions`, `Format.FormatEntry` and
`Format.PythonDict` take the escaping as a parameter: `QuotesOnly` is the code
as written, `Full` the corrected escaping. `Format.EscapeReadsBack` and the
read-back lemmas hold for `Full` on every text, and for `QuotesOnly` only on
texts with no backslash and no line break.
