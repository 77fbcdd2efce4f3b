/**
 * What the character editor's lexer accepts, what it produces and where it stops,
 * stated about `Scan`, the function that `CharacterEditorLexer.Lex` is proved to
 * compute. `line` is the whole input (it only matters for the error value) and the
 * text being scanned is the part of it not consumed yet.
 */
module LexerProperties {
  import opened Wrappers
  import opened Chars
  import opened CharacterEditorLexer

  /** A token the lexer can produce: a well-formed word, or a number other than -128. */
  predicate WellFormedToken(t: Token)
  {
    match t
    case Word(w) => IsWordText(w)
    case Number(n) => -127 <= n <= 127
  }

  /** Only the last token of the sequence may be a number. */
  predicate NumbersOnlyLast(ts: seq<Token>)
  {
    forall i :: 0 <= i < |ts| - 1 ==> ts[i].Word?
  }

  predicate AllWhitespace(s: string)
  {
    forall i :: 0 <= i < |s| ==> IsWhitespace(s[i])
  }

  // ---------------------------------------------------------------------------
  // Unfolding `Scan` by one step

  lemma ScanOnAdvance(line: string, rest: string, emitted: seq<Token>, k: nat)
    requires rest != [] && Step(line, rest) == Advance(emitted, k)
    ensures Scan(line, rest) == Prepend(emitted, Scan(line, rest[k..]))
  {
  }

  lemma ScanOnStop(line: string, rest: string, e: LexError)
    requires rest != [] && Step(line, rest) == Stop(e)
    ensures Scan(line, rest) == Err(e)
  {
  }

  // ---------------------------------------------------------------------------
  // The arms of the scanner, on text of a given shape

  /** Whitespace is consumed and never produces a token. */
  lemma {:induction false} ScanSkipsWhitespace(line: string, ws: string, rest: string)
    requires AllWhitespace(ws)
    ensures Scan(line, ws + rest) == Scan(line, rest)
    decreases |ws|
  {
    if ws != [] {
      var text := ws + rest;
      StepOnWhitespace(line, text);
      ScanOnAdvance(line, text, [], 1);
      assert text[1..] == ws[1..] + rest;
      ScanSkipsWhitespace(line, ws[1..], rest);
      match Scan(line, rest)
      case Ok(us) => assert [] + us == us;
      case Err(_) =>
    } else {
      assert ws + rest == rest;
    }
  }

  /** An empty or whitespace-only line lexes to no tokens. */
  lemma LexWhitespaceOnly(line: string)
    requires AllWhitespace(line)
    ensures LexResult(line) == Ok([])
  {
    ScanSkipsWhitespace(line, line, []);
    assert line + [] == line;
  }

  /**
   * A token that starts with a character that is not whitespace, '-', an ASCII digit
   * or a letter is an error that carries that character and the whole line.
   */
  lemma ScanUnexpectedStart(line: string, c: char, rest: string)
    requires !IsWhitespace(c) && c != '-' && !IsAsciiDigit(c) && !IsAlphabetic(c)
    ensures Scan(line, [c] + rest) == Err(UnexpectedCharacter(Some(line), c))
  {
    StepOnOther(line, [c] + rest);
    ScanOnStop(line, [c] + rest, UnexpectedCharacter(Some(line), c));
  }

  /**
   * A word is taken whole: followed by the end of the input it is the last token,
   * followed by whitespace it is emitted before the tokens of the rest, and followed
   * by anything else it is an error at that character.
   */
  lemma ScanWord(line: string, w: string, rest: string)
    requires IsWordText(w)
    requires rest == [] || !IsWordChar(rest[0])
    ensures rest == [] ==> Scan(line, w + rest) == Ok([Word(w)])
    ensures rest != [] && IsWhitespace(rest[0]) ==>
              Scan(line, w + rest) == Prepend([Word(w)], Scan(line, rest))
    ensures rest != [] && !IsWhitespace(rest[0]) ==>
              Scan(line, w + rest) == Err(UnexpectedCharacter(Some(line), rest[0]))
  {
    var text := w + rest;
    assert text[1..] == w[1..] + rest;
    WordRunLengthUnique(text[1..], |w| - 1);
    StepOnLetter(line, text, |w|);
    assert text[..|w|] == w && text[|w|..] == rest;
    if CheckNext(rest, IsWhitespace) {
      ScanOnAdvance(line, text, [Word(w)], |w|);
      assert [Word(w)] + [] == [Word(w)];
    } else {
      ScanOnStop(line, text, UnexpectedCharacter(Some(line), rest[0]));
    }
  }

  /** `parse_number` on a digit run followed by `rest`. */
  lemma NumberStepOnRun(line: string, digits: string, rest: string, isNegative: bool)
    requires digits != [] && AllDigits(digits)
    requires rest == [] || !IsAsciiDigit(rest[0])
    ensures rest == [] && DecimalValue(digits) <= 127 ==>
              NumberStep(line, digits + rest, isNegative)
              == Advance([Number(if isNegative then -(DecimalValue(digits) as i8) else DecimalValue(digits) as i8)], |digits|)
    ensures rest == [] && DecimalValue(digits) > 127 ==>
              NumberStep(line, digits + rest, isNegative) == Advance([], |digits|)
    ensures rest != [] ==>
              NumberStep(line, digits + rest, isNegative) == Stop(UnexpectedCharacter(Some(line), rest[0]))
  {
    var text := digits + rest;
    DigitRunLengthUnique(text, |digits|);
    assert text[..|digits|] == digits && text[|digits|..] == rest;
    ParseI8Value(digits);
  }

  /**
   * A run of digits, with or without a leading '-', becomes a number only when it
   * reaches the end of the input; any character after it, whitespace included, is
   * an error. A run worth more than 127 is dropped without an error, so every
   * number lies in [-127, 127].
   */
  lemma ScanNumber(line: string, isNegative: bool, digits: string, rest: string)
    requires digits != [] && AllDigits(digits)
    requires rest == [] || !IsAsciiDigit(rest[0])
    ensures var text := (if isNegative then "-" else "") + digits + rest;
            && (rest == [] && DecimalValue(digits) <= 127 ==>
                  Scan(line, text) == Ok([Number(if isNegative then -(DecimalValue(digits) as i8) else DecimalValue(digits) as i8)]))
            && (rest == [] && DecimalValue(digits) > 127 ==> Scan(line, text) == Ok([]))
            && (rest != [] ==> Scan(line, text) == Err(UnexpectedCharacter(Some(line), rest[0])))
  {
    var text := (if isNegative then "-" else "") + digits + rest;
    NumberStepOnRun(line, digits, rest, isNegative);
    if isNegative {
      assert text[0] == '-' && text[1..] == digits + rest;
      StepOnDash(line, text);
    } else {
      assert text == digits + rest;
      StepOnDigit(line, text);
    }
    match Step(line, text)
    case Advance(emitted, k) =>
      ScanOnAdvance(line, text, emitted, k);
      assert text[k..] == [];
      assert emitted + [] == emitted;
    case Stop(e) =>
      ScanOnStop(line, text, e);
  }

  /**
   * A '-' that is not followed by a digit is consumed on its own: it produces
   * neither a token nor an error, and scanning resumes at the next character.
   */
  lemma ScanDashSkip(line: string, rest: string)
    requires rest == [] || !IsAsciiDigit(rest[0])
    ensures Scan(line, ['-'] + rest) == Scan(line, rest)
  {
    var text := ['-'] + rest;
    assert text[1..] == rest;
    DigitRunLengthUnique(rest, 0);
    StepOnDash(line, text);
    ScanOnAdvance(line, text, [], 1);
    match Scan(line, rest)
    case Ok(us) => assert [] + us == us;
    case Err(_) =>
  }

  // ---------------------------------------------------------------------------
  // Properties of every result

  /** What a single step can emit: at most one well-formed token, and a number only at the end. */
  lemma StepEmits(line: string, rest: string)
    requires rest != [] && Step(line, rest).Advance?
    ensures var s := Step(line, rest);
            && |s.emitted| <= 1
            && (forall t :: t in s.emitted ==> WellFormedToken(t))
            && (s.emitted != [] && s.emitted[0].Number? ==> s.consumed == |rest|)
  {
    var ch := rest[0];
    if IsWhitespace(ch) {
      StepOnWhitespace(line, rest);
    } else if ch == '-' {
      StepOnDash(line, rest);
      NumberStepEmits(line, rest[1..], true);
    } else if IsAsciiDigit(ch) {
      StepOnDigit(line, rest);
      NumberStepEmits(line, rest, false);
    } else if IsAlphabetic(ch) {
      var n := 1 + WordRunLength(rest[1..]);
      StepOnLetter(line, rest, n);
      var w := rest[..n];
      assert forall i :: 1 <= i < |w| ==> w[i] == rest[1..][i - 1];
      assert IsWordText(w);
    } else {
      StepOnOther(line, rest);
    }
  }

  lemma NumberStepEmits(line: string, rest: string, isNegative: bool)
    requires NumberStep(line, rest, isNegative).Advance?
    ensures var s := NumberStep(line, rest, isNegative);
            && |s.emitted| <= 1
            && (forall t :: t in s.emitted ==> WellFormedToken(t))
            && (s.emitted != [] ==> s.emitted[0].Number? && s.consumed == |rest|)
  {
    var n := DigitRunLength(rest);
    var digits := rest[..n];
    assert AllDigits(digits);
    ParseI8Value(digits);
  }

  /**
   * Every token of a successful scan is well formed (a word as the lexer forms it, or
   * a number in [-127, 127]) and only the last token can be a number.
   */
  lemma {:induction false} ScanTokensWellFormed(line: string, rest: string)
    requires Scan(line, rest).Ok?
    ensures forall t :: t in Scan(line, rest).value ==> WellFormedToken(t)
    ensures NumbersOnlyLast(Scan(line, rest).value)
    decreases |rest|
  {
    if rest != [] {
      var s := Step(line, rest);
      if s.Stop? {
        assert false;
      } else {
        var emitted, k := s.emitted, s.consumed;
        StepEmits(line, rest);
        ScanOnAdvance(line, rest, emitted, k);
        var tail := Scan(line, rest[k..]);
        ScanTokensWellFormed(line, rest[k..]);
        if emitted != [] && emitted[0].Number? {
          assert rest[k..] == [];
        }
        PrependWellFormed(emitted, tail.value);
      }
    }
  }

  lemma PrependWellFormed(ts: seq<Token>, us: seq<Token>)
    requires |ts| <= 1 && (forall t :: t in ts ==> WellFormedToken(t))
    requires forall t :: t in us ==> WellFormedToken(t)
    requires NumbersOnlyLast(us)
    requires ts != [] && ts[0].Number? ==> us == []
    ensures forall t :: t in ts + us ==> WellFormedToken(t)
    ensures NumbersOnlyLast(ts + us)
  {
    var r := ts + us;
    forall i | 0 <= i < |r| - 1
      ensures r[i].Word?
    {
      if i >= |ts| {
        assert r[i] == us[i - |ts|];
      }
    }
  }

  /** What a single step stops at: a character of the text, reported with the whole line. */
  lemma StepStops(line: string, rest: string)
    requires rest != [] && Step(line, rest).Stop?
    ensures Step(line, rest).error.input == Some(line)
    ensures Step(line, rest).error.unexpectedChar in rest
  {
    var ch := rest[0];
    if IsWhitespace(ch) {
      StepOnWhitespace(line, rest);
    } else if ch == '-' {
      StepOnDash(line, rest);
      var n := DigitRunLength(rest[1..]);
      if n < |rest[1..]| {
        assert rest[1..][n] == rest[n + 1];
      }
    } else if IsAsciiDigit(ch) {
      StepOnDigit(line, rest);
    } else if IsAlphabetic(ch) {
      StepOnLetter(line, rest, 1 + WordRunLength(rest[1..]));
    } else {
      StepOnOther(line, rest);
    }
  }

  /** Every error carries the original line and a character that occurs in it. */
  lemma {:induction false} ScanErrorsCarryLine(line: string, rest: string)
    requires Scan(line, rest).Err?
    ensures Scan(line, rest).error.input == Some(line)
    ensures Scan(line, rest).error.unexpectedChar in rest
    decreases |rest|
  {
    var s := Step(line, rest);
    match s
    case Advance(emitted, k) =>
      ScanOnAdvance(line, rest, emitted, k);
      ScanErrorsCarryLine(line, rest[k..]);
      var c := Scan(line, rest).error.unexpectedChar;
      var i :| 0 <= i < |rest[k..]| && rest[k..][i] == c;
      assert rest[k + i] == c;
    case Stop(e) =>
      StepStops(line, rest);
      ScanOnStop(line, rest, e);
  }

  /** Lexing a whole line: the two properties above, for `lex` itself. */
  lemma LexResultProperties(line: string)
    ensures LexResult(line).Ok? ==> forall t :: t in LexResult(line).value ==> WellFormedToken(t)
    ensures LexResult(line).Ok? ==> NumbersOnlyLast(LexResult(line).value)
    ensures LexResult(line).Err? ==> LexResult(line).error.input == Some(line)
    ensures LexResult(line).Err? ==> LexResult(line).error.unexpectedChar in line
  {
    if LexResult(line).Ok? {
      ScanTokensWellFormed(line, line);
    } else {
      ScanErrorsCarryLine(line, line);
    }
  }

  // ---------------------------------------------------------------------------
  // Writing tokens back as text

  function DigitChar(d: nat): (c: char)
    requires d < 10
    ensures IsAsciiDigit(c) && DigitValue(c) == d
  {
    ('0' as int + d) as char
  }

  /** The decimal numeral of `n`, without leading zeros. */
  function NatText(n: nat): (s: string)
    ensures s != [] && AllDigits(s)
    decreases n
  {
    if n < 10 then [DigitChar(n)] else NatText(n / 10) + [DigitChar(n % 10)]
  }

  lemma {:induction false} DecimalValueFromAppend(acc: nat, s: string, t: string)
    requires AllDigits(s) && AllDigits(t)
    ensures AllDigits(s + t)
    ensures DecimalValueFrom(acc, s + t) == DecimalValueFrom(DecimalValueFrom(acc, s), t)
    decreases |s|
  {
    if s == [] {
      assert s + t == t;
    } else {
      assert (s + t)[1..] == s[1..] + t;
      DecimalValueFromAppend(10 * acc + DigitValue(s[0]), s[1..], t);
    }
  }

  /** Reading a numeral back gives the number it was written from. */
  lemma {:induction false} NatTextValue(n: nat)
    ensures DecimalValue(NatText(n)) == n
    decreases n
  {
    if n < 10 {
      var c := DigitChar(n);
      assert [c][1..] == [];
      assert DecimalValueFrom(DigitValue(c), []) == n;
      assert DecimalValueFrom(0, [c]) == DecimalValueFrom(DigitValue(c), [c][1..]);
    } else {
      var c := DigitChar(n % 10);
      NatTextValue(n / 10);
      DecimalValueFromAppend(0, NatText(n / 10), [c]);
      assert [c][1..] == [];
      assert DecimalValueFrom(n / 10, [c]) == 10 * (n / 10) + n % 10;
    }
  }

  /** The text of one token: the word itself, or the number in decimal with a '-' when negative. */
  function TokenText(t: Token): (r: string)
  {
    match t
    case Word(w) => w
    case Number(n) => if n < 0 then "-" + NatText(-(n as int)) else NatText(n as int)
  }

  /** The tokens written out with one space between neighbours. */
  function Render(ts: seq<Token>): (r: string)
    decreases |ts|
  {
    if |ts| == 0 then ""
    else if |ts| == 1 then TokenText(ts[0])
    else TokenText(ts[0]) + " " + Render(ts[1..])
  }

  /** A well-formed token written on its own lexes back to itself. */
  lemma TokenScansAlone(line: string, t: Token)
    requires WellFormedToken(t)
    ensures Scan(line, TokenText(t)) == Ok([t])
  {
    match t
    case Word(w) =>
      ScanWord(line, w, []);
      assert w + [] == w;
    case Number(n) =>
      var m: nat := if n < 0 then -(n as int) else n as int;
      NatTextValue(m);
      ScanNumber(line, n < 0, NatText(m), []);
      assert (if n < 0 then "-" else "") + NatText(m) + [] == TokenText(t);
  }

  /** A number followed by further text stops at the character after it. */
  lemma NumberThenMore(line: string, n: i8, more: string)
    requires -127 <= n <= 127
    requires more != [] && !IsAsciiDigit(more[0])
    ensures Scan(line, TokenText(Number(n)) + more) == Err(UnexpectedCharacter(Some(line), more[0]))
  {
    var m: nat := if n < 0 then -(n as int) else n as int;
    var text := TokenText(Number(n)) + more;
    assert text == (if n < 0 then "-" else "") + NatText(m) + more;
    ScanNumber(line, n < 0, NatText(m), more);
  }

  /** A word followed by a space and more text lexes to the word and then the rest. */
  lemma WordThenSpace(line: string, w: string, more: string)
    requires IsWordText(w)
    ensures Scan(line, w + " " + more) == Prepend([Word(w)], Scan(line, more))
  {
    assert w + " " + more == w + (" " + more);
    ScanWord(line, w, " " + more);
    ScanSkipsWhitespace(line, " ", more);
  }

  /** Two words after leading whitespace lex to those two words, in order. */
  lemma ScanTwoWords(line: string, ws: string, u: string, v: string)
    requires AllWhitespace(ws) && IsWordText(u) && IsWordText(v)
    ensures Scan(line, ws + (u + " " + v)) == Ok([Word(u), Word(v)])
  {
    ScanSkipsWhitespace(line, ws, u + " " + v);
    WordThenSpace(line, u, v);
    ScanWord(line, v, []);
    assert v + [] == v;
    assert [Word(u)] + [Word(v)] == [Word(u), Word(v)];
  }

  /** A word, a space and a digit run in range lex to the word and the number. */
  lemma ScanWordThenNumber(line: string, w: string, digits: string)
    requires IsWordText(w) && digits != [] && AllDigits(digits) && DecimalValue(digits) <= 127
    ensures Scan(line, w + " " + digits) == Ok([Word(w), Number(DecimalValue(digits) as i8)])
  {
    WordThenSpace(line, w, digits);
    ScanNumber(line, false, digits, []);
    assert "" + digits + [] == digits;
    assert [Word(w)] + [Number(DecimalValue(digits) as i8)] == [Word(w), Number(DecimalValue(digits) as i8)];
  }

  /** A word, a space and a digit run beyond 127 lex to the word alone. */
  lemma ScanWordThenOverflow(line: string, w: string, digits: string)
    requires IsWordText(w) && digits != [] && AllDigits(digits) && DecimalValue(digits) > 127
    ensures Scan(line, w + " " + digits) == Ok([Word(w)])
  {
    WordThenSpace(line, w, digits);
    ScanNumber(line, false, digits, []);
    assert "" + digits + [] == digits;
    assert [Word(w)] + [] == [Word(w)];
  }

  /**
   * Well-formed tokens written out with single spaces lex back to the same tokens
   * when no number comes before the last place.
   */
  lemma {:induction false} ScanRender(line: string, ts: seq<Token>)
    requires forall t :: t in ts ==> WellFormedToken(t)
    requires NumbersOnlyLast(ts)
    ensures Scan(line, Render(ts)) == Ok(ts)
    decreases |ts|
  {
    if |ts| == 1 {
      TokenScansAlone(line, ts[0]);
      assert [ts[0]] == ts;
    } else if |ts| > 1 {
      var t := ts[0];
      assert t in ts && t.Word?;
      var tail := ts[1..];
      assert forall i :: 0 <= i < |tail| - 1 ==> tail[i] == ts[i + 1];
      ScanRender(line, tail);
      WordThenSpace(line, t.text, Render(tail));
      assert [t] + tail == ts;
    }
  }

  /**
   * ... and otherwise they do not: a number written before another token stops the
   * lexer at the space that follows it.
   */
  lemma {:induction false} ScanRenderNumberNotLast(line: string, ts: seq<Token>)
    requires forall t :: t in ts ==> WellFormedToken(t)
    requires !NumbersOnlyLast(ts)
    ensures Scan(line, Render(ts)) == Err(UnexpectedCharacter(Some(line), ' '))
    decreases |ts|
  {
    var tail := ts[1..];
    assert ts[0] in ts;
    if ts[0].Number? {
      assert TokenText(ts[0]) + " " + Render(tail) == TokenText(ts[0]) + (" " + Render(tail));
      NumberThenMore(line, ts[0].value, " " + Render(tail));
    } else {
      var i :| 0 <= i < |ts| - 1 && !ts[i].Word?;
      assert tail[i - 1] == ts[i];
      ScanRenderNumberNotLast(line, tail);
      WordThenSpace(line, ts[0].text, Render(tail));
    }
  }

  /**
   * The round trip between `Render` and `lex`: for well-formed tokens, lexing their
   * text gives them back exactly when only the last of them may be a number.
   */
  lemma LexRenderRoundTrip(ts: seq<Token>)
    requires forall t :: t in ts ==> WellFormedToken(t)
    ensures LexResult(Render(ts)) == Ok(ts) <==> NumbersOnlyLast(ts)
  {
    if NumbersOnlyLast(ts) {
      ScanRender(Render(ts), ts);
    } else {
      ScanRenderNumberNotLast(Render(ts), ts);
    }
  }
}
