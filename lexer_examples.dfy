/** What the character editor's lexer makes of some lines a user might type. */
module LexerExamples {
  import opened Wrappers
  import opened CharacterEditorLexer
  import opened LexerProperties

  lemma LexWordExample()
    ensures LexResult("exit") == Ok([Word("exit")])
  {
    var w := "exit";
    ScanWord(w, w, []);
    assert w + [] == w;
  }

  lemma LexTwoWordsExample(line: string)
    requires line == "  foo_1 bar"
    ensures LexResult(line) == Ok([Word("foo_1"), Word("bar")])
  {
    var ws, u, v := "  ", "foo_1", "bar";
    assert line == ws + (u + " " + v);
    ScanTwoWords(line, ws, u, v);
  }

  /** A '-' before a word is dropped. */
  lemma LexDashWordExample(line: string)
    requires line == "-exit"
    ensures LexResult(line) == Ok([Word("exit")])
  {
    var w := "exit";
    assert line == ['-'] + w;
    ScanDashSkip(line, w);
    ScanWord(line, w, []);
    assert w + [] == w;
  }

  lemma LexNegativeExample()
    ensures LexResult("-5") == Ok([Number(-5)])
  {
    var l, d := "-5", "5";
    ScanNumber(l, true, d, []);
    assert "-" + d + [] == l;
  }

  lemma LexWordNumberExample(line: string)
    requires line == "exit 42"
    ensures LexResult(line) == Ok([Word("exit"), Number(42)])
  {
    var w, d := "exit", "42";
    assert line == w + " " + d;
    assert DecimalValue(d) == 42;
    ScanWordThenNumber(line, w, d);
  }

  /** A number beyond the range of `i8` vanishes without an error. */
  lemma LexOverflowExample(line: string)
    requires line == "200"
    ensures LexResult(line) == Ok([])
  {
    var d := "200";
    ScanNumber(line, false, d, []);
    assert "" + d + [] == line;
  }

  /** So does -128: the digits are parsed as 128 before the sign is applied. */
  lemma LexMinimumExample(line: string)
    requires line == "-128"
    ensures LexResult(line) == Ok([])
  {
    var d := "128";
    ScanNumber(line, true, d, []);
    assert "-" + d + [] == line;
  }

  lemma LexErrorExamples()
    ensures LexResult("1 2") == Err(UnexpectedCharacter(Some("1 2"), ' '))
    ensures LexResult("foo$") == Err(UnexpectedCharacter(Some("foo$"), '$'))
    ensures LexResult("$") == Err(UnexpectedCharacter(Some("$"), '$'))
  {
    var l, d, r := "1 2", "1", " 2";
    ScanNumber(l, false, d, r);
    assert "" + d + r == l;

    l, d, r := "foo$", "foo", "$";
    ScanWord(l, d, r);
    assert d + r == l;

    l := "$";
    ScanUnexpectedStart(l, '$', []);
    assert ['$'] + [] == l;
  }
}
