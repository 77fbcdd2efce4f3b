/**
 * Lines run through the lexer and then the parser, as a command typed into the
 * character editor would be.
 */
module PipelineExamples {
  import opened Wrappers
  import opened CharacterEditorLexer
  import opened LexerProperties
  import opened LexerExamples
  import opened CharacterEditorParser
  import Application

  lemma ExitLineExits(line: string)
    requires line == "exit"
    ensures LexResult(line).Ok? && Parse(LexResult(line).value) == Ok(Application.Event.Exit)
  {
    LexWordExample();
  }

  /** The dash before the word is dropped by the lexer, so this is accepted too. */
  lemma DashExitLineExits(line: string)
    requires line == "-exit"
    ensures LexResult(line).Ok? && Parse(LexResult(line).value) == Ok(Application.Event.Exit)
  {
    LexDashWordExample(line);
  }

  /** The overflowing number vanishes in the lexer, so the parser sees the exit word alone. */
  lemma ExitWithOverflowExits(line: string)
    requires line == "exit 200"
    ensures LexResult(line) == Ok([Word("exit")])
    ensures Parse(LexResult(line).value) == Ok(Application.Event.Exit)
  {
    var w, d := "exit", "200";
    assert line == w + " " + d;
    assert DecimalValue(d) == 200;
    ScanWordThenOverflow(line, w, d);
  }

  lemma ExitWithArgumentRejected(line: string)
    requires line == "exit 42"
    ensures LexResult(line).Ok?
    ensures Parse(LexResult(line).value) == Err(ExtraneousArgumentsProvided([Word("exit"), Number(42)]))
  {
    LexWordNumberExample(line);
  }

  /** The extraneous-arguments error carries the whole list, the command word included. */
  lemma ExitWithWordRejected(line: string)
    requires line == "exit now"
    ensures LexResult(line) == Ok([Word("exit"), Word("now")])
    ensures Parse(LexResult(line).value) == Err(ExtraneousArgumentsProvided([Word("exit"), Word("now")]))
  {
    var ws, u, v := "", "exit", "now";
    assert line == ws + (u + " " + v);
    ScanTwoWords(line, ws, u, v);
  }

  lemma LeadingNumberRejected(line: string)
    requires line == "-5"
    ensures LexResult(line).Ok? && Parse(LexResult(line).value) == Err(FirstTokenCannotBeNumber(-5))
  {
    LexNegativeExample();
  }

  lemma BlankLineRejected(line: string)
    requires line == "   "
    ensures LexResult(line).Ok? && Parse(LexResult(line).value) == Err(NoTokensProvided)
  {
    LexWhitespaceOnly(line);
  }
}
