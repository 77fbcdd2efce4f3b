/**
 * The character editor's lexer (`CharacterEditorLexer` in
 * src/parser/character_editor_lexer.rs): a single left-to-right pass over one line
 * of text with one character of lookahead, producing words and signed 8-bit numbers
 * or stopping at the first unexpected character.
 *
 * `Lex` and `ParseNumber` are the imperative scanner; an index into the line plays
 * the part of the peekable iterator. `Step` is one iteration of the scanner's loop
 * as a function and `Scan` is the whole scan as a function; `Lex` is proved equal
 * to `Scan`, and the lemmas below say what `Scan` accepts, what it produces and
 * where it stops.
 */
module CharacterEditorLexer {
  import opened Wrappers
  import opened Chars

  /** Rust's `i8`. */
  newtype i8 = x: int | -128 <= x < 128

  /** `CharacterEditorToken`. */
  datatype Token = Word(text: string) | Number(value: i8)

  /** `CharacterEditorLexerError`: the offending character and the line it was found in. */
  datatype LexError = UnexpectedCharacter(input: Option<string>, unexpectedChar: char)

  /** A character that may continue a word once it has started. */
  predicate IsWordChar(c: char)
  {
    IsAlphanumeric(c) || c == '_'
  }

  /** A word as the lexer forms it: a letter followed by letters, digits and underscores. */
  predicate IsWordText(w: string)
  {
    w != [] && IsAlphabetic(w[0]) && forall i :: 1 <= i < |w| ==> IsWordChar(w[i])
  }

  predicate AllDigits(s: string)
  {
    forall i :: 0 <= i < |s| ==> IsAsciiDigit(s[i])
  }

  function DigitRunLength(s: string): (n: nat)
    ensures n <= |s|
    ensures forall i :: 0 <= i < n ==> IsAsciiDigit(s[i])
    ensures n < |s| ==> !IsAsciiDigit(s[n])
  {
    if s == [] || !IsAsciiDigit(s[0]) then 0 else 1 + DigitRunLength(s[1..])
  }
  function WordRunLength(s: string): (n: nat)
    ensures n <= |s|
    ensures forall i :: 0 <= i < n ==> IsWordChar(s[i])
    ensures n < |s| ==> !IsWordChar(s[n])
  {
    if s == [] || !IsWordChar(s[0]) then 0 else 1 + WordRunLength(s[1..])
  }
  lemma DigitRunLengthUnique(s: string, n: nat)
    requires n <= |s|
    requires forall i :: 0 <= i < n ==> IsAsciiDigit(s[i])
    requires n < |s| ==> !IsAsciiDigit(s[n])
    ensures DigitRunLength(s) == n
  {
  }
  lemma WordRunLengthUnique(s: string, n: nat)
    requires n <= |s|
    requires forall i :: 0 <= i < n ==> IsWordChar(s[i])
    requires n < |s| ==> !IsWordChar(s[n])
    ensures WordRunLength(s) == n
  {
  }

  /**
   * `check_next`: whether the next character satisfies `f`; true at the end of the
   * input.
   */
  function CheckNext(rest: string, f: char -> bool): (r: bool)
  {
    if rest == [] then true else f(rest[0])
  }

  /**
   * After a maximal run of digits, `check_next` with the digit test holds only at the
   * end of the input: a number token can only be the last thing on the line.
   */
  lemma CheckNextDigitsOnlyAtEnd(s: string)
    ensures CheckNext(s[DigitRunLength(s)..], IsAsciiDigit)
            <==> DigitRunLength(s) == |s|
  {
  }

  function DigitValue(c: char): nat
    requires IsAsciiDigit(c)
  {
    c as int - '0' as int
  }

  /** The value of `acc` followed by the decimal digits `s`, most significant first. */
  function DecimalValueFrom(acc: nat, s: string): (r: nat)
    requires AllDigits(s)
    decreases |s|
  {
    if s == [] then acc else DecimalValueFrom(10 * acc + DigitValue(s[0]), s[1..])
  }

  /** The value of a string of decimal digits. */
  function DecimalValue(s: string): (r: nat)
    requires AllDigits(s)
  {
    DecimalValueFrom(0, s)
  }

  /**
   * The digit loop of `i8::from_str` after the sign: each step multiplies by ten and
   * adds the next digit, and fails as soon as the value leaves the range of `i8`.
   */
  function ParseDigits(acc: i8, digits: string): (r: Option<i8>)
    requires 0 <= acc && AllDigits(digits)
    ensures r.Some? ==> 0 <= r.value
    decreases |digits|
  {
    if digits == [] then Some(acc)
    else
      var v := 10 * acc as int + DigitValue(digits[0]);
      if v > 127 then None else ParseDigits(v as i8, digits[1..])
  }

  /** `str::parse::<i8>` on a run of ASCII digits (the run never carries a sign). */
  function ParseI8(digits: string): (r: Option<i8>)
    requires AllDigits(digits)
    ensures r.Some? ==> 0 <= r.value
  {
    ParseDigits(0, digits)
  }

  lemma {:induction false} DecimalValueFromAtLeast(acc: nat, s: string)
    requires AllDigits(s)
    ensures DecimalValueFrom(acc, s) >= acc
    decreases |s|
  {
    if s != [] {
      DecimalValueFromAtLeast(10 * acc + DigitValue(s[0]), s[1..]);
    }
  }

  lemma {:induction false} ParseDigitsValue(acc: i8, digits: string)
    requires 0 <= acc && AllDigits(digits)
    ensures ParseDigits(acc, digits).Some? <==> DecimalValueFrom(acc as nat, digits) <= 127
    ensures ParseDigits(acc, digits).Some? ==> ParseDigits(acc, digits).value as int == DecimalValueFrom(acc as nat, digits)
    decreases |digits|
  {
    if digits != [] {
      var v := 10 * acc as int + DigitValue(digits[0]);
      if v > 127 {
        DecimalValueFromAtLeast(v, digits[1..]);
      } else {
        ParseDigitsValue(v as i8, digits[1..]);
      }
    }
  }

  /**
   * Parsing a digit run as `i8` succeeds exactly when its decimal value is at most
   * 127 and then yields that value; a longer run overflows and fails.
   */
  lemma ParseI8Value(digits: string)
    requires AllDigits(digits)
    ensures ParseI8(digits).Some? <==> DecimalValue(digits) <= 127
    ensures ParseI8(digits).Some? ==> ParseI8(digits).value as int == DecimalValue(digits)
  {
    ParseDigitsValue(0, digits);
  }

  /**
   * What one iteration of the scanning loop does: emit some tokens and consume a
   * number of characters, or stop with an error.
   */
  datatype StepOutcome = Advance(emitted: seq<Token>, consumed: nat) | Stop(error: LexError)

  /**
   * `parse_number` applied to `rest`, the text after the sign if there was one:
   * a digit run that reaches the end of the input yields a number (nothing if it
   * overflows), a digit run followed by any character is an error at that
   * character, and no digits at all consume nothing.
   */
  function NumberStep(line: string, rest: string, isNegative: bool): (s: StepOutcome)
    ensures s.Advance? ==> s.consumed <= |rest|
    ensures s.Advance? && rest != [] && IsAsciiDigit(rest[0]) ==> s.consumed > 0
  {
    var n := DigitRunLength(rest);
    var digits := rest[..n];
    var after := rest[n..];
    if CheckNext(after, IsAsciiDigit) && digits != [] then
      var number := ParseI8(digits);
      if number.Some? then
        Advance([Number(if isNegative then -number.value else number.value)], n)
      else
        Advance([], n)
    else if digits != [] && after != [] then
      Stop(UnexpectedCharacter(Some(line), after[0]))
    else
      Advance([], n)
  }

  /** One iteration of the `while let` loop in `lex`, on the unconsumed text `rest`. */
  function Step(line: string, rest: string): (s: StepOutcome)
    requires rest != []
    ensures s.Advance? ==> 0 < s.consumed <= |rest|
  {
    var ch := rest[0];
    if IsWhitespace(ch) then
      Advance([], 1)
    else if ch == '-' then
      match NumberStep(line, rest[1..], true)
      case Advance(emitted, k) => Advance(emitted, k + 1)
      case Stop(e) => Stop(e)
    else if IsAsciiDigit(ch) then
      NumberStep(line, rest, false)
    else if IsAlphabetic(ch) then
      var n := 1 + WordRunLength(rest[1..]);
      if CheckNext(rest[n..], IsWhitespace) then
        Advance([Word(rest[..n])], n)
      else
        Stop(UnexpectedCharacter(Some(line), rest[n]))
    else
      Stop(UnexpectedCharacter(Some(line), ch))
  }

  /** Puts `ts` in front of the tokens of a successful result. */
  function Prepend(ts: seq<Token>, r: Result<seq<Token>, LexError>): (res: Result<seq<Token>, LexError>)
  {
    match r
    case Ok(us) => Ok(ts + us)
    case Err(e) => Err(e)
  }

  /**
   * The scan of the unconsumed text `rest` of `line`: the loop of `lex` as a
   * recursive function. Every step consumes at least one character, which is the
   * termination argument.
   */
  function Scan(line: string, rest: string): (r: Result<seq<Token>, LexError>)
    decreases |rest|
  {
    if rest == [] then Ok([])
    else
      match Step(line, rest)
      case Stop(e) => Err(e)
      case Advance(emitted, k) => Prepend(emitted, Scan(line, rest[k..]))
  }

  /** What `lex` returns for `line`. */
  function LexResult(line: string): (r: Result<seq<Token>, LexError>)
  {
    Scan(line, line)
  }

  lemma PrependTwice(ts: seq<Token>, us: seq<Token>, r: Result<seq<Token>, LexError>)
    ensures Prepend(ts, Prepend(us, r)) == Prepend(ts + us, r)
  {
    match r
    case Ok(vs) => assert ts + (us + vs) == (ts + us) + vs;
    case Err(_) =>
  }

  /** One unfolding of `Scan` at position `i` of the line. */
  lemma ScanAt(line: string, i: nat)
    requires i < |line|
    ensures Scan(line, line[i..]) == match Step(line, line[i..])
                                     case Stop(e) => Err(e)
                                     case Advance(emitted, k) => Prepend(emitted, Scan(line, line[i + k..]))
  {
    var rest := line[i..];
    match Step(line, rest)
    case Stop(e) =>
    case Advance(emitted, k) =>
      assert rest[k..] == line[i + k..];
  }

  /**
   * `parse_number`: consumes the digit run at `start` and appends the number it
   * denotes to `tokens`, or reports the character that follows the run.
   */
  method ParseNumber(line: string, start: nat, tokens: seq<Token>, isNegative: bool)
    returns (next: nat, tokens': seq<Token>, error: Option<LexError>)
    requires start <= |line|
    ensures error.None? <==> NumberStep(line, line[start..], isNegative).Advance?
    ensures error.Some? ==> error.value == NumberStep(line, line[start..], isNegative).error
    ensures error.None? ==> next == start + NumberStep(line, line[start..], isNegative).consumed
    ensures error.None? ==> tokens' == tokens + NumberStep(line, line[start..], isNegative).emitted
  {
    var j := start;
    while j < |line| && IsAsciiDigit(line[j])
      invariant start <= j <= |line|
      invariant forall m :: start <= m < j ==> IsAsciiDigit(line[m])
    {
      j := j + 1;
    }
    ghost var rest := line[start..];
    DigitRunLengthUnique(rest, j - start);
    assert rest[j - start..] == line[j..];
    var digits := line[start..j];
    assert digits == rest[..j - start];
    next, tokens', error := j, tokens, None;
    if CheckNext(line[j..], IsAsciiDigit) && digits != [] {
      var number := ParseI8(digits);
      if number.Some? {
        var n := number.value;
        if isNegative {
          n := -n;
        }
        tokens' := tokens + [Number(n)];
      }
    } else if digits != [] {
      if j < |line| {
        error := Some(UnexpectedCharacter(Some(line), line[j]));
      }
    }
  }

  /** The five arms of the loop's `match`, one lemma each. */
  lemma StepOnWhitespace(line: string, rest: string)
    requires rest != [] && IsWhitespace(rest[0])
    ensures Step(line, rest) == Advance([], 1)
  {
  }

  lemma StepOnDash(line: string, rest: string)
    requires rest != [] && rest[0] == '-'
    ensures Step(line, rest) == match NumberStep(line, rest[1..], true)
                                case Advance(emitted, k) => Advance(emitted, k + 1)
                                case Stop(e) => Stop(e)
  {
    ClassesDisjoint(rest[0]);
  }

  lemma StepOnDigit(line: string, rest: string)
    requires rest != [] && IsAsciiDigit(rest[0])
    ensures Step(line, rest) == NumberStep(line, rest, false)
  {
    ClassesDisjoint(rest[0]);
  }

  lemma StepOnLetter(line: string, rest: string, n: nat)
    requires rest != [] && IsAlphabetic(rest[0])
    requires n == 1 + WordRunLength(rest[1..])
    ensures CheckNext(rest[n..], IsWhitespace) ==> Step(line, rest) == Advance([Word(rest[..n])], n)
    ensures !CheckNext(rest[n..], IsWhitespace) ==> n < |rest| && Step(line, rest) == Stop(UnexpectedCharacter(Some(line), rest[n]))
  {
    ClassesDisjoint(rest[0]);
  }

  lemma StepOnOther(line: string, rest: string)
    requires rest != [] && !IsWhitespace(rest[0]) && rest[0] != '-' && !IsAsciiDigit(rest[0]) && !IsAlphabetic(rest[0])
    ensures Step(line, rest) == Stop(UnexpectedCharacter(Some(line), rest[0]))
  {
  }

  /** A step that consumes the characters from `i` up to `j` and emits `emitted`. */
  lemma ScanAdvance(line: string, i: nat, j: nat, emitted: seq<Token>)
    requires i < j <= |line|
    requires Step(line, line[i..]) == Advance(emitted, j - i)
    ensures Scan(line, line[i..]) == Prepend(emitted, Scan(line, line[j..]))
  {
    var rest, k := line[i..], j - i;
    assert rest[k..] == line[j..];
    assert Scan(line, rest) == Prepend(emitted, Scan(line, rest[k..]));
  }

  /** A step that stops ends the scan with its error. */
  lemma ScanStops(line: string, i: nat, e: LexError)
    requires i < |line|
    requires Step(line, line[i..]) == Stop(e)
    ensures Scan(line, line[i..]) == Err(e)
  {
    ScanAt(line, i);
  }

  /**
   * One iteration of the loop in `lex`: looks at the character at `i` and consumes
   * whitespace, a number, a word, or stops at an unexpected character.
   */
  method NextToken(line: string, i: nat, tokens: seq<Token>)
    returns (next: nat, tokens': seq<Token>, error: Option<LexError>)
    requires i < |line|
    ensures error.None? <==> Step(line, line[i..]).Advance?
    ensures error.Some? ==> error.value == Step(line, line[i..]).error
    ensures error.None? ==> next == i + Step(line, line[i..]).consumed
    ensures error.None? ==> tokens' == tokens + Step(line, line[i..]).emitted
  {
    ghost var rest := line[i..];
    next, tokens', error := i, tokens, None;
    var ch := line[i];
    if IsWhitespace(ch) {
      StepOnWhitespace(line, rest);
      next := i + 1;
      assert tokens + [] == tokens;
    } else if ch == '-' {
      StepOnDash(line, rest);
      assert rest[1..] == line[i + 1..];
      next, tokens', error := ParseNumber(line, i + 1, tokens, true);
    } else if IsAsciiDigit(ch) {
      StepOnDigit(line, rest);
      next, tokens', error := ParseNumber(line, i, tokens, false);
    } else if IsAlphabetic(ch) {
      var j := i + 1;
      while j < |line| && IsWordChar(line[j])
        invariant i < j <= |line|
        invariant forall m :: i < m < j ==> IsWordChar(line[m])
      {
        j := j + 1;
      }
      WordRunLengthUnique(rest[1..], j - i - 1);
      StepOnLetter(line, rest, j - i);
      assert rest[j - i..] == line[j..];
      assert line[i..j] == rest[..j - i];
      if CheckNext(line[j..], IsWhitespace) {
        next, tokens' := j, tokens + [Word(line[i..j])];
      } else {
        error := Some(UnexpectedCharacter(Some(line), line[j]));
      }
    } else {
      StepOnOther(line, rest);
      error := Some(UnexpectedCharacter(Some(line), ch));
    }
  }

  /** `lex`: the tokens of `line` in order, or the first unexpected character. */
  method Lex(line: string) returns (r: Result<seq<Token>, LexError>)
    ensures r == LexResult(line)
  {
    var tokens: seq<Token> := [];
    var i := 0;
    assert line[i..] == line;
    match LexResult(line) {
      case Ok(us) => assert tokens + us == us;
      case Err(_) =>
    }
    while i < |line|
      invariant i <= |line|
      invariant LexResult(line) == Prepend(tokens, Scan(line, line[i..]))
    {
      var next, tokens', error := NextToken(line, i, tokens);
      if error.Some? {
        ScanStops(line, i, error.value);
        return Err(error.value);
      }
      ghost var emitted := tokens'[|tokens|..];
      assert tokens' == tokens + emitted;
      ScanAdvance(line, i, next, emitted);
      PrependTwice(tokens, emitted, Scan(line, line[next..]));
      i, tokens := next, tokens';
    }
    assert line[i..] == [];
    assert tokens + [] == tokens;
    return Ok(tokens);
  }
}
