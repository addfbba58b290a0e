/**
 * The Python dictionary literal of the "Dictionary" tab in
 * `displayResults`: one line per question, the question as a quoted key and
 * its options as a list of `(letter, text)` tuples.
 */
module Format {
  import opened Strings
  import opened Wrappers
  import opened Questions

  /** How many times `c` occurs in `s`. */
  function CountChar(s: string, c: char): nat
  {
    if s == [] then 0 else (if s[0] == c then 1 else 0) + CountChar(s[1..], c)
  }

  /** `s.replace(/"/g, '\\"')`: a backslash goes in front of every double
      quote, and nothing else changes. */
  function EscapeQuotes(s: string): (r: string)
    ensures |r| == |s| + CountChar(s, '"')
    ensures r != [] ==> r[0] != '"'
    ensures forall i :: 0 <= i < |r| && r[i] == '"' ==> 0 < i && r[i - 1] == '\\'
  {
    if s == [] then []
    else
      var head := if s[0] == '"' then "\\\"" else [s[0]];
      var r := head + EscapeQuotes(s[1..]);
      assert forall i :: |head| <= i < |r| ==> r[i] == EscapeQuotes(s[1..])[i - |head|];
      r
  }

  /** The inverse of `EscapeQuotes`: every backslash-quote pair, read from
      the left, becomes a quote. */
  function UnescapeQuotes(r: string): string
  {
    if r == [] then []
    else if |r| >= 2 && r[0] == '\\' && r[1] == '"' then "\"" + UnescapeQuotes(r[2..])
    else [r[0]] + UnescapeQuotes(r[1..])
  }

  /** Undoing the escaping gives the text back, whatever backslashes and
      quotes it holds. */
  lemma {:induction false} UnescapeEscape(s: string)
    ensures UnescapeQuotes(EscapeQuotes(s)) == s
  {
    if s != [] {
      var tail := EscapeQuotes(s[1..]);
      UnescapeEscape(s[1..]);
      if s[0] == '"' {
        assert EscapeQuotes(s) == "\\\"" + tail;
        assert EscapeQuotes(s)[2..] == tail;
      } else {
        assert EscapeQuotes(s) == [s[0]] + tail;
        assert EscapeQuotes(s)[1..] == tail;
      }
    }
  }

  /** The character a Python string literal means by a backslash followed by
      `c`, for the escapes this model reads. */
  function EscapeMeaning(c: char): Option<char>
  {
    if c == '\\' then Some('\\')
    else if c == '"' then Some('"')
    else if c == 'n' then Some('\n')
    else if c == 'r' then Some('\r')
    else None
  }

  /** Python's reading of a double-quoted string literal, from just after
      its opening quote: the text it denotes and how many characters it
      takes up to and including the closing quote. `None` when the literal
      never closes or breaks a line, and also for the escapes other than
      `\\`, `\"`, `\n` and `\r`, which this reader does not model. */
  function ReadLiteral(r: string): Option<(string, nat)>
  {
    if r == [] then None
    else if r[0] == '"' then Some(("", 1))
    else if r[0] == '\n' || r[0] == '\r' then None
    else if r[0] == '\\' then
      if |r| < 2 || EscapeMeaning(r[1]).None? then None
      else match ReadLiteral(r[2..])
        case None => None
        case Some(rest) => Some(([EscapeMeaning(r[1]).value] + rest.0, rest.1 + 2))
    else match ReadLiteral(r[1..])
      case None => None
      case Some(rest) => Some(([r[0]] + rest.0, rest.1 + 1))
  }

  /** The escape of one character: backslash, quote and the two line
      breaks each become a two-character escape. */
  function EscapeChar(c: char): (e: string)
    ensures 1 <= |e| <= 2
    ensures |e| == 1 ==> e[0] == c && c != '"' && c != '\\' && c != '\n' && c != '\r'
    ensures |e| == 2 ==> e[0] == '\\' && EscapeMeaning(e[1]) == Some(c)
  {
    if c == '\\' then "\\\\"
    else if c == '"' then "\\\""
    else if c == '\n' then "\\n"
    else if c == '\r' then "\\r"
    else [c]
  }

  /** The escaping the literal needs, character by character. */
  function EscapePython(s: string): (r: string)
    ensures '\n' !in r && '\r' !in r
  {
    if s == [] then [] else EscapeChar(s[0]) + EscapePython(s[1..])
  }

  /** Reading an escaped character: the literal reader takes the escape
      and carries on with what follows it. */
  lemma ReadEscapedChar(c: char, rest: string)
    requires ReadLiteral(rest).Some?
    ensures var t := ReadLiteral(rest).value;
            ReadLiteral(EscapeChar(c) + rest) == Some(([c] + t.0, t.1 + |EscapeChar(c)|))
  {
    var r := EscapeChar(c) + rest;
    assert r[|EscapeChar(c)|..] == rest;
  }

  lemma Regroup(h: string, t: string, q: string, after: string)
    ensures h + t + q + after == h + (t + q + after)
  {
  }

  /** With the corrected escaping, Python reads the literal back as the
      text, and it ends exactly at the closing quote, whatever follows. */
  lemma {:induction false} EscapePythonReadsBack(s: string, after: string)
    ensures ReadLiteral(EscapePython(s) + "\"" + after) == Some((s, |EscapePython(s)| + 1))
  {
    if s != [] {
      var rest := EscapePython(s[1..]) + "\"" + after;
      EscapePythonReadsBack(s[1..], after);
      ReadEscapedChar(s[0], rest);
      Regroup(EscapeChar(s[0]), EscapePython(s[1..]), "\"", after);
      assert s == [s[0]] + s[1..];
    } else {
      assert (EscapePython(s) + "\"" + after)[0] == '"';
    }
  }

  /** How question and option texts are escaped: as written, with
      `replace(/"/g, '\\"')`, or with the corrected escaping. */
  datatype Escaping = QuotesOnly | Full

  function Escape(mode: Escaping, s: string): string
  {
    match mode
    case QuotesOnly => EscapeQuotes(s)
    case Full => EscapePython(s)
  }

  /** A text for which escaping the quotes is enough: it has no backslash
      and no line break. */
  predicate Plain(s: string)
  {
    '\\' !in s && '\n' !in s && '\r' !in s
  }

  /** On a plain text the two escapings agree. */
  lemma {:induction false} QuotesOnlyEnoughWhenPlain(s: string)
    requires Plain(s)
    ensures EscapeQuotes(s) == EscapePython(s)
  {
    if s != [] {
      assert s == [s[0]] + s[1..];
      assert s[0] in s;
      assert Plain(s[1..]) by {
        forall c | c in s[1..] ensures c in s { }
      }
      QuotesOnlyEnoughWhenPlain(s[1..]);
    }
  }

  /** Python reads an escaped text back when the escaping is the corrected
      one, and also as written when the text is plain. */
  lemma EscapeReadsBack(mode: Escaping, s: string, after: string)
    requires mode == Full || Plain(s)
    ensures ReadLiteral(Escape(mode, s) + "\"" + after) == Some((s, |Escape(mode, s)| + 1))
  {
    if mode == QuotesOnly {
      QuotesOnlyEnoughWhenPlain(s);
    }
    EscapePythonReadsBack(s, after);
  }

  /** `("${letter}", "${text}")`, the text escaped by `mode`. */
  function FormatChoice(c: Choice, mode: Escaping): string
  {
    "(\"" + [c.letter] + "\", \"" + Escape(mode, c.text) + "\")"
  }

  /** The list of options: `[]` when there are none, otherwise the tuples
      joined by `", "` inside brackets. */
  function FormatOptions(options: seq<Choice>, mode: Escaping): (r: string)
    ensures options == [] ==> r == "[]"
    ensures |r| >= 2 && r[0] == '[' && r[|r| - 1] == ']'
  {
    if |options| > 0 then
      "[" + Join(seq(|options|, i requires 0 <= i < |options| => FormatChoice(options[i], mode)), ", ") + "]"
    else "[]"
  }

  /** `    "${question}": ${formattedOptions}`, the question escaped by
      `mode`. */
  function FormatEntry(e: Entry, mode: Escaping): string
  {
    "    \"" + Escape(mode, e.question) + "\": " + FormatOptions(e.options, mode)
  }

  /** The whole literal: `{`, the entries in key order joined by `",\n"`,
      then `}`. */
  function PythonDict(es: seq<Entry>, mode: Escaping): string
  {
    "{\n" + Join(seq(|es|, i requires 0 <= i < |es| => FormatEntry(es[i], mode)), ",\n") + "\n}"
  }

  /** As written, the option `C:\` of a question prints as the tuple
      `("A", "C:\")`: the backslash passes through unchanged. */
  lemma BackslashOptionTuple()
    ensures FormatChoice(Choice('A', "C:\\"), QuotesOnly) == "(\"A\", \"C:\\\")"
  {
    assert EscapeQuotes("C:\\") == "C:\\" by {
      assert "C:\\"[1..] == ":\\";
      assert ":\\"[1..] == "\\";
      assert EscapeQuotes("\\") == "\\" + EscapeQuotes([]);
    }
  }

  /** Python finds no closing quote in `C:\")`: the backslash escapes the
      only quote. */
  lemma BackslashOptionUnclosed()
    ensures ReadLiteral("C:\\\")") == None
  {
    var r := "C:\\\")";
    assert ReadLiteral(r[4..]) == None;
    assert ReadLiteral(r[2..]) == None;
    assert ReadLiteral(r[1..]) == None;
  }

  /** As written, an option whose text ends in a backslash escapes its own
      closing quote: the text literal of the option `A) C:\` never closes.
      No length or keyword filter applies to option texts, and the option
      is one the parser records. */
  lemma EscapeQuotesBackslashBreaks()
    ensures ValidChoice(Choice('A', "C:\\"))
    ensures var r := FormatChoice(Choice('A', "C:\\"), QuotesOnly);
            r == "(\"A\", \"C:\\\")" && ReadLiteral(r[7..]) == None
  {
    BackslashOptionTuple();
    BackslashOptionUnclosed();
    assert "(\"A\", \"C:\\\")"[7..] == "C:\\\")";
  }

  /** The first string of an option tuple reads back as its letter. */
  lemma ChoiceLetterReadsBack(c: Choice, mode: Escaping)
    requires 'A' <= c.letter <= 'D'
    ensures var r := FormatChoice(c, mode);
            r[..2] == "(\"" && ReadLiteral(r[2..]) == Some(([c.letter], 2))
  {
    var r := FormatChoice(c, mode);
    var after := ", \"" + Escape(mode, c.text) + "\")";
    assert r == "(\"" + ([c.letter] + "\"" + after);
    assert r[2..] == [c.letter] + "\"" + after;
    assert EscapePython([c.letter]) == [c.letter];
    EscapePythonReadsBack([c.letter], after);
  }

  /** The second string of an option tuple reads back as its text, with the
      corrected escaping always and as written when the text is plain. */
  lemma ChoiceTextReadsBack(c: Choice, mode: Escaping)
    requires mode == Full || Plain(c.text)
    ensures var r := FormatChoice(c, mode);
            r[4..7] == ", \"" && ReadLiteral(r[7..]) == Some((c.text, |Escape(mode, c.text)| + 1))
  {
    var r := FormatChoice(c, mode);
    var q := Escape(mode, c.text);
    assert r == "(\"" + [c.letter] + "\", \"" + (q + "\"" + ")");
    assert r[7..] == q + "\"" + ")";
    EscapeReadsBack(mode, c.text, ")");
  }

  /** Python reads both strings of an option tuple back: the letter (any
      letter the parser records) and the option text. */
  lemma ChoiceReadsBack(c: Choice, mode: Escaping)
    requires 'A' <= c.letter <= 'D'
    requires mode == Full || Plain(c.text)
    ensures var r := FormatChoice(c, mode);
            && r[..2] == "(\""
            && ReadLiteral(r[2..]) == Some(([c.letter], 2))
            && r[4..7] == ", \""
            && ReadLiteral(r[7..]) == Some((c.text, |Escape(mode, c.text)| + 1))
  {
    ChoiceLetterReadsBack(c, mode);
    ChoiceTextReadsBack(c, mode);
  }

  /** Python reads the key of an entry line back as the question, with the
      corrected escaping always and as written when the question is plain. */
  lemma EntryKeyReadsBack(e: Entry, mode: Escaping)
    requires mode == Full || Plain(e.question)
    ensures var r := FormatEntry(e, mode);
            r[..5] == "    \"" && ReadLiteral(r[5..]) == Some((e.question, |Escape(mode, e.question)| + 1))
  {
    var r := FormatEntry(e, mode);
    var after := ": " + FormatOptions(e.options, mode);
    assert r == "    \"" + (Escape(mode, e.question) + "\"" + after);
    EscapeReadsBack(mode, e.question, after);
  }

  /** The escaped key is followed by a quote and the colon. */
  lemma EntryKeyThenColon(e: Entry, mode: Escaping)
    ensures var r := FormatEntry(e, mode);
            var n := |Escape(mode, e.question)|;
            r[5 + n] == '"' && r[5 + n + 1] == ':'
  {
    var r := FormatEntry(e, mode);
    var q := Escape(mode, e.question);
    assert r == "    \"" + q + "\"" + (": " + FormatOptions(e.options, mode));
  }

  /** One option prints as its tuple in brackets. */
  lemma FormatOptionsSingle(c: Choice, mode: Escaping)
    ensures FormatOptions([c], mode) == "[" + FormatChoice(c, mode) + "]"
  {
    var ts := seq(1, i requires 0 <= i < 1 => FormatChoice([c][i], mode));
    assert ts == [FormatChoice(c, mode)];
  }

  /** One more option adds `, ` and its tuple before the closing bracket. */
  lemma FormatOptionsAppend(os: seq<Choice>, c: Choice, mode: Escaping)
    requires os != []
    ensures var f := FormatOptions(os, mode);
            FormatOptions(os + [c], mode) == f[..|f| - 1] + ", " + FormatChoice(c, mode) + "]"
  {
    var os' := os + [c];
    var x := FormatChoice(c, mode);
    var ts := seq(|os|, i requires 0 <= i < |os| => FormatChoice(os[i], mode));
    var ts' := seq(|os'|, i requires 0 <= i < |os'| => FormatChoice(os'[i], mode));
    assert ts' == ts + [x];
    JoinSnoc(ts, x, ", ");
    assert FormatOptions(os', mode) == "[" + (Join(ts, ", ") + ", " + x) + "]";
    Reframe("[", Join(ts, ", "), "]", ", ", x);
  }

  /** Text inserted before a closing part, in the shape the two append
      lemmas need. */
  lemma Reframe(o: string, j: string, cl: string, sep: string, x: string)
    ensures var f := o + j + cl;
            |f| >= |cl| && f[..|f| - |cl|] + sep + x + cl == o + (j + sep + x) + cl
  {
    var f := o + j + cl;
    assert f[..|f| - |cl|] == o + j;
  }

  /** With no questions the literal is `{`, an empty line and `}`. */
  lemma PythonDictEmpty(mode: Escaping)
    ensures PythonDict([], mode) == "{\n\n}"
  {
  }

  /** One question prints as its entry line between the braces. */
  lemma PythonDictSingle(e: Entry, mode: Escaping)
    ensures PythonDict([e], mode) == "{\n" + FormatEntry(e, mode) + "\n}"
  {
    var ls := seq(1, i requires 0 <= i < 1 => FormatEntry([e][i], mode));
    assert ls == [FormatEntry(e, mode)];
  }

  /** One more question adds `,`, a line break and its entry line before
      the closing line break and brace. */
  lemma PythonDictAppend(es: seq<Entry>, e: Entry, mode: Escaping)
    requires es != []
    ensures var d := PythonDict(es, mode);
            |d| >= 2 && PythonDict(es + [e], mode) == d[..|d| - 2] + ",\n" + FormatEntry(e, mode) + "\n}"
  {
    var es' := es + [e];
    var x := FormatEntry(e, mode);
    var ls := seq(|es|, i requires 0 <= i < |es| => FormatEntry(es[i], mode));
    var ls' := seq(|es'|, i requires 0 <= i < |es'| => FormatEntry(es'[i], mode));
    assert ls' == ls + [x];
    JoinSnoc(ls, x, ",\n");
    assert PythonDict(es', mode) == "{\n" + (Join(ls, ",\n") + ",\n" + x) + "\n}";
    Reframe("{\n", Join(ls, ",\n"), "\n}", ",\n", x);
  }
}
