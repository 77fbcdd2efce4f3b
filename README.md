# dnd_tui: the character editor's command pipeline and the key dispatchers

This project models the core of `dnd_tui`, a terminal application for tabletop
role-playing sessions, and proves properties of the model in Dafny. The core is the
command pipeline of the character editor view and two small state machines around it:

- **The lexer** (`CharacterEditorLexer::lex`, `parse_number`, `check_next`). It turns a
  typed line into `Word` and `Number(i8)` tokens, or stops with an
  `UnexpectedCharacter` error carrying the line and the offending character.
  - `lexer.dfy` has the imperative scanner. `Lex` runs the loop, `NextToken` is one
    iteration and `ParseNumber` is `parse_number`. Each is proved to compute what the
    functional specification says.
  - The specification is `Step`, one iteration, and `Scan`, the whole loop as a
    recursive function.
  - `lexer_properties.dfy` proves what `Scan` accepts and produces. It includes a round
    trip between tokens and their text.
  - `lexer_examples.dfy` works through concrete lines.
- **The parser** (`CharacterEditorParser::parse`, `map_event`), in `parser.dfy`. It is a
  total function from a token list to the `Exit` event or one of four errors.
  `pipeline_examples.dfy` runs lines through the lexer and then the parser.
- **The character editor's input buffer** (`CharacterEditor::handle_key_event`,
  `handle_event`), in `editor.dfy`.
  - `EditedInput` and `SentEvents` say what one key does to the buffer and to the
    event channel.
  - The class `CharacterEditor` is proved to follow them.
- **The application dispatcher** (`App::handle_key_event`, `App::handle_command`), in
  `app.dfy` (module `Application`). It handles the exit flag, the active view, the command channel and the
  forwarding of keys and commands to the active view.
  - `OnKey` and `OnCommand` say what one call does to the dispatcher's state.
  - The class `App` is proved to follow them.
- Shared definitions:
  - `chars.dfy` holds the character classes: Rust's `char` predicates, with the
    restriction under "Left out".
  - `keys.dfy` holds the key event record: kind, code, Control and Shift.
  - `wrappers.dfy` holds `Option` and `Result`.

Behaviour of the code that the model keeps:

- **Numbers must end the line.** `parse_number` pushes a number only when no character
  follows its digit run, and fails at any character that does, a space included
  (src/parser/character_editor_lexer.rs:36-56). As a result, `lex("1 2")` fails at the
  space (`LexerExamples.LexErrorExamples`).
  - `LexerProperties.LexRenderRoundTrip` states the consequence exactly. Tokens written
    out with single spaces lex back to themselves if and only if no number comes
    before the last token.
- **Exact command matching.** `map_event` accepts exactly `"exit"` and `"Exit"`
  (src/parser/character_editor_parser.rs:19-20), so `"EXIT"` is an unknown command.
- **The extraneous-arguments error carries the whole list.** `map_event` returns the
  whole token list, command word included (src/parser/character_editor_parser.rs:21-26;
  `PipelineExamples.ExitWithWordRejected`).
- **Enter only lexes.** The Enter arm lexes the buffer, prints the lex result (not
  modelled) and clears the buffer (src/views/character_editor.rs:68-84); the parser is
  not called from the editor.
- **Commands and keys drive the dispatcher.** `handle_command` acts on the `Command`s
  taken from the dispatcher's own command channel (src/app.rs:78-89); `handle_key_event`
  acts on keys (src/app.rs:59-76).
- **One `Event` type.** `src/app.rs` declares `Event` with only `Input`, but the editor
  sends `Event::Exit` and `Event::Undo` (src/views/character_editor.rs:37, 46), and the
  parser returns `Event::Exit`. The model's `Application.Event` has all three variants.

## Model

| member | source | states |
|---|---|---|
| CharacterEditorLexer.Lex | src/parser/character_editor_lexer.rs:76-125 | `lex` returns exactly `LexResult(line)`: the tokens of the whole scan, or the error of the first step that stops |
| CharacterEditorLexer.NextToken | src/parser/character_editor_lexer.rs:80-121 | one iteration of the `while let` loop fails exactly when `Step` stops, with its error; otherwise it advances by `Step`'s count and appends `Step`'s tokens |
| CharacterEditorLexer.ParseNumber | src/parser/character_editor_lexer.rs:22-60 | `parse_number` fails exactly when `NumberStep` stops, with its error; otherwise it consumes the digit run and appends `NumberStep`'s tokens |
| CharacterEditorLexer.Step | src/parser/character_editor_lexer.rs:80-121 | every iteration that does not return consumes at least one character and no more than remain, which is why `lex` terminates |
| CharacterEditorLexer.NumberStep | src/parser/character_editor_lexer.rs:31-59 | `parse_number` consumes no more than the remaining text, and at least one character when a digit comes first |
| CharacterEditorLexer.DigitRunLength | src/parser/character_editor_lexer.rs:31-34 | `peeking_take_while(is_ascii_digit)` takes the maximal run of ASCII digits |
| CharacterEditorLexer.WordRunLength | src/parser/character_editor_lexer.rs:100-103 | `peeking_take_while` takes the maximal run of alphanumeric characters and underscores |
| CharacterEditorLexer.CheckNextDigitsOnlyAtEnd | src/parser/character_editor_lexer.rs:62-72 | after a maximal digit run, `check_next(is_ascii_digit)` holds only at the end of the input |
| CharacterEditorLexer.ParseI8Value | src/parser/character_editor_lexer.rs:37 | `parse::<i8>` of a digit run succeeds exactly when its decimal value is at most 127, and then yields that value |
| LexerProperties.ScanSkipsWhitespace | src/parser/character_editor_lexer.rs:83-85 | whitespace is consumed and never produces a token |
| LexerProperties.LexWhitespaceOnly | src/parser/character_editor_lexer.rs:80-124 | an empty or whitespace-only line lexes to no tokens |
| LexerProperties.ScanUnexpectedStart | src/parser/character_editor_lexer.rs:115-119 | a token that starts with anything but whitespace, '-', a digit or a letter fails with that character and the line |
| LexerProperties.ScanWord | src/parser/character_editor_lexer.rs:94-113 | a word is emitted whole when followed by the end or whitespace (then scanning goes on), and fails at the next character otherwise |
| LexerProperties.NumberStepOnRun | src/parser/character_editor_lexer.rs:31-59 | `parse_number` on a digit run: a number with the sign applied if the run ends the input and fits, nothing if it overflows, an error at the next character otherwise |
| LexerProperties.ScanNumber | src/parser/character_editor_lexer.rs:36-56 | a signed or unsigned digit run yields ± its decimal value only at the end of the input, vanishes above 127, and fails at any following character, whitespace included |
| LexerProperties.ScanDashSkip | src/parser/character_editor_lexer.rs:86-88 | a '-' not followed by a digit is consumed alone, without token or error, and scanning resumes after it |
| LexerProperties.StepEmits | src/parser/character_editor_lexer.rs:80-121 | one iteration emits at most one well-formed token, and a number only when it consumed the rest of the line |
| LexerProperties.ScanTokensWellFormed | src/parser/character_editor_lexer.rs:37-42 | every token of a successful lex is a word of letters, digits and underscores starting with a letter, or a number in [-127, 127]; only the last token can be a number |
| LexerProperties.StepStops | src/parser/character_editor_lexer.rs:44-55 | an iteration that fails reports the whole line and a character of the remaining text |
| LexerProperties.ScanErrorsCarryLine | src/parser/character_editor_lexer.rs:107-119 | every lex error carries `Some(line)` and a character that occurs in the scanned text |
| LexerProperties.LexResultProperties | src/parser/character_editor_lexer.rs:76-125 | the two properties above for `lex` on a whole line |
| LexerProperties.TokenScansAlone | src/parser/character_editor_lexer.rs:76-125 | a well-formed token written on its own lexes back to itself |
| LexerProperties.NumberThenMore | src/parser/character_editor_lexer.rs:43-56 | a number followed by a non-digit fails at that character |
| LexerProperties.WordThenSpace | src/parser/character_editor_lexer.rs:106-107 | a word followed by a space is emitted before the tokens of the rest, in order |
| LexerProperties.ScanTwoWords | src/parser/character_editor_lexer.rs:94-113 | leading whitespace and two space-separated words lex to those two words in order |
| LexerProperties.ScanWordThenNumber | src/parser/character_editor_lexer.rs:36-41 | a word, a space and an in-range digit run lex to the word and the number |
| LexerProperties.ScanWordThenOverflow | src/parser/character_editor_lexer.rs:37-42 | a word, a space and a digit run above 127 lex to the word alone |
| LexerProperties.ScanRender | src/parser/character_editor_lexer.rs:76-125 | well-formed tokens joined by single spaces, with numbers only last, lex back to the same tokens |
| LexerProperties.ScanRenderNumberNotLast | src/parser/character_editor_lexer.rs:43-56 | joined tokens with a number before the last place fail at the space after that number |
| LexerProperties.LexRenderRoundTrip | src/parser/character_editor_lexer.rs:76-125 | for well-formed tokens, lexing their joined text gives them back if and only if only the last may be a number |
| LexerExamples.LexWordExample | src/parser/character_editor_lexer.rs:94-107 | "exit" lexes to `[Word("exit")]` |
| LexerExamples.LexTwoWordsExample | src/parser/character_editor_lexer.rs:83-107 | "  foo_1 bar" lexes to `[Word("foo_1"), Word("bar")]` |
| LexerExamples.LexDashWordExample | src/parser/character_editor_lexer.rs:86-88 | "-exit" lexes to `[Word("exit")]` |
| LexerExamples.LexNegativeExample | src/parser/character_editor_lexer.rs:36-41 | "-5" lexes to `[Number(-5)]` |
| LexerExamples.LexWordNumberExample | src/parser/character_editor_lexer.rs:36-41 | "exit 42" lexes to `[Word("exit"), Number(42)]` |
| LexerExamples.LexOverflowExample | src/parser/character_editor_lexer.rs:37-42 | "200" lexes to no tokens and no error |
| LexerExamples.LexMinimumExample | src/parser/character_editor_lexer.rs:37-40 | "-128" lexes to no tokens, since 128 is parsed before the sign is applied |
| LexerExamples.LexErrorExamples | src/parser/character_editor_lexer.rs:43-119 | "1 2" fails at the space, "foo$" and "$" fail at '$', each with the line |
| CharacterEditorParser.MapEvent | src/parser/character_editor_parser.rs:15-33 | `Exit` exactly for an exit word with one token; otherwise the extraneous error with all tokens for an exit word, or `UnknownCommand` with the word |
| CharacterEditorParser.Parse | src/parser/character_editor_parser.rs:37-58 | `Ok(Exit)` exactly for `[Word("exit")]` and `[Word("Exit")]`; `NoTokensProvided` exactly for the empty list |
| CharacterEditorParser.ParseFirstNumber | src/parser/character_editor_parser.rs:48-51 | a leading `Number(n)` fails with `FirstTokenCannotBeNumber(n)`, whatever follows |
| CharacterEditorParser.ParseExtraneous | src/parser/character_editor_parser.rs:21-26 | an exit word followed by tokens fails with the entire token list, command word included |
| CharacterEditorParser.ParseUnknown | src/parser/character_editor_parser.rs:29-31 | any other leading word fails with `UnknownCommand` of that word |
| CharacterEditorParser.ParseIsCaseSensitive | src/parser/character_editor_parser.rs:19-20 | "EXIT" and "eXit" are unknown commands |
| CharacterEditorParser.ParseDependsOnHeadAndLength | src/parser/character_editor_parser.rs:37-58 | lists with the same first token and length parse alike, except that the extraneous error carries each its own list |
| PipelineExamples.ExitLineExits | src/parser/character_editor_parser.rs:20-22 | the line "exit" lexes and parses to `Exit` |
| PipelineExamples.DashExitLineExits | src/parser/character_editor_parser.rs:20-22 | "-exit" also parses to `Exit`, since the lexer drops the dash |
| PipelineExamples.ExitWithOverflowExits | src/parser/character_editor_parser.rs:20-22 | "exit 200" parses to `Exit`, since the lexer drops the overflowing number |
| PipelineExamples.ExitWithArgumentRejected | src/parser/character_editor_parser.rs:21-26 | "exit 42" fails with the extraneous error carrying `[Word("exit"), Number(42)]` |
| PipelineExamples.ExitWithWordRejected | src/parser/character_editor_parser.rs:21-26 | "exit now" fails with the extraneous error carrying `[Word("exit"), Word("now")]` |
| PipelineExamples.LeadingNumberRejected | src/parser/character_editor_parser.rs:48-51 | "-5" fails with `FirstTokenCannotBeNumber(-5)` |
| PipelineExamples.BlankLineRejected | src/parser/character_editor_parser.rs:42-57 | a blank line fails with `NoTokensProvided` |
| CharacterEditorView.CharacterEditor.constructor | src/views/character_editor.rs:25-31 | a new editor has an empty buffer and has sent nothing, so its buffer holds only typeable characters |
| CharacterEditorView.CharacterEditor.HandleKeyEvent | src/views/character_editor.rs:33-89 | the buffer becomes `EditedInput` of the old buffer and the key, `SentEvents` of the key are appended to what was sent, and the buffer keeps holding only typeable characters |
| CharacterEditorView.CharacterEditor.HandleEvent | src/views/character_editor.rs:108-112 | an `Input` event is handled as its key; any other event changes nothing |
| CharacterEditorView.NonPressChangesNothing | src/views/character_editor.rs:34 | releases and repeats change neither the buffer nor what is sent |
| CharacterEditorView.TypingAppends | src/views/character_editor.rs:50-62 | a plain character is appended at the end, upper-cased with Shift, exactly when it is alphanumeric, a space or ASCII punctuation; otherwise the buffer is unchanged; nothing is sent |
| CharacterEditorView.ShiftUpperCases | src/views/character_editor.rs:53-57 | with Shift a lower-case ASCII letter is added as the matching upper-case letter |
| CharacterEditorView.ControlNeverEdits | src/views/character_editor.rs:40-49 | with Control no character edits the buffer; Ctrl+z sends exactly one `Undo`, other characters nothing |
| CharacterEditorView.BackspaceRemovesLast | src/views/character_editor.rs:65-67 | Backspace removes exactly the last character and does nothing to an empty buffer |
| CharacterEditorView.EscSendsExit | src/views/character_editor.rs:36-38 | Esc sends exactly one `Exit` and leaves the buffer as it was |
| CharacterEditorView.EnterClears | src/views/character_editor.rs:68-84 | Enter leaves the buffer empty, whatever the lexer made of it |
| CharacterEditorView.SentEventsIff | src/views/character_editor.rs:35-49 | at most one event per key: `Exit` if and only if Esc was pressed, `Undo` if and only if Ctrl+z was pressed |
| CharacterEditorView.BackspaceUndoesTyping | src/views/character_editor.rs:50-67 | Backspace after typing an accepted character restores the buffer |
| CharacterEditorView.UpperCaseTypeable | src/views/character_editor.rs:51-57 | upper-casing keeps a character acceptable |
| CharacterEditorView.EditingKeepsTypeable | src/views/character_editor.rs:50-84 | no key puts an unacceptable character into the buffer |
| CharacterEditorView.TypingAppendsText | src/views/character_editor.rs:50-62 | typing a text of acceptable characters key by key appends exactly that text |
| CharacterEditorView.BackspacesEmpty | src/views/character_editor.rs:65-67 | at least as many Backspaces as there are characters empty the buffer |
| Application.App.constructor | src/main.rs:22-41 | the application starts not exiting, on the main menu, with every view registered and nothing sent or forwarded |
| Application.App.HandleKeyEvent | src/app.rs:59-76 | the new state is `OnKey` of the old one; every view stays registered, so looking up the active view always succeeds |
| Application.App.HandleCommand | src/app.rs:78-89 | the new state is `OnCommand` of the old one; every view stays registered |
| Application.NonPressIgnored | src/app.rs:60 | releases and repeats change nothing |
| Application.EscSendsExit | src/app.rs:63 | a pressed Esc appends exactly one `Exit` command to the back of the queue and changes neither the flag, the view nor what was forwarded |
| Application.ViewKeysSelect | src/app.rs:64-66 | pressed '1', '2' and '3' select the main menu, the character editor and the combat tracker, without sending or forwarding anything |
| Application.OtherKeysForwarded | src/app.rs:67-72 | any other pressed key is forwarded once to the active view and leaves the flag, the view and the queue unchanged |
| Application.KeyKeepsExit | src/app.rs:59-76 | no key changes the exit flag, and none removes a sent command or a delivery |
| Application.ExitCommandExits | src/app.rs:80 | `Exit` sets the flag and leaves the view unchanged |
| Application.ViewCommandSelects | src/app.rs:81 | `View(v)` makes `v` active and leaves the flag unchanged |
| Application.OtherCommandsForwarded | src/app.rs:82-87 | `Submit`, `Next` and `Previous` are forwarded to the active view and leave the flag and the view unchanged |
| Application.CommandExitIff | src/app.rs:79-88 | after a command the flag is set if and only if it was set before or the command was `Exit` |
| Application.CommandKeepsQueue | src/app.rs:78-89 | handling a command sends none |
| Application.ExitIsFinal | src/app.rs:59-89 | once set, the exit flag stays set whatever keys and commands follow |
| Application.ExitIffExitCommand | src/app.rs:59-89 | after a sequence of keys and commands the flag is set if and only if it was set before or an `Exit` command was among them |
| Application.ViewComesFromSelection | src/app.rs:64-81 | the active view at the end is the initial one or one that a view key or a `View` command selected |
| Application.EscThenItsCommandExits | src/app.rs:63-80 | a pressed Esc puts `Exit` at the back of the queue, and handling it sets the flag |
| Chars.ToAsciiUppercase | src/views/character_editor.rs:57 | 'a'..'z' map to 'A'..'Z' (32 code points lower); every other character is unchanged |
| Chars.ClassesDisjoint | src/parser/character_editor_lexer.rs:83-94 | whitespace, '-', digits and letters, the classes the lexer dispatches on, do not overlap |

## Left out

- Character classes. `is_alphabetic` and `is_alphanumeric` are Unicode properties whose
  tables are not written out; the model restricts them to ASCII letters and digits.
  `is_whitespace` is the full Unicode White_Space set. `to_ascii_uppercase` and
  `is_ascii_punctuation` are exact.
- Text and iterators. A Rust `String` is a `seq<char>` of Unicode scalar values. The
  peekable iterator of `lex` and `parse_number` is an index into the line.
- Output.
  - The Enter key prints the lex result (`println!`); that is terminal output and is
    not modelled. `HandleKeyEvent` runs the lexer on the buffer and discards the result.
  - All `draw` code (`App::draw`, the views' `draw`) is terminal rendering and is left
    out.
- Channels.
  - The event channel and the command channel are modelled only by what is sent on
    them: the ghost sequences `CharacterEditor.sent` and `App.commandQueue`.
  - A send on a closed channel (the `unwrap` panic) is not modelled.
- `App::run` (src/app.rs:35-49) is left out. It is a polling loop over two channels
  with terminal draws; the receiving ends of the channels belong to it.
- The handlers the dispatcher calls through `AppView` (src/app.rs:67-72 and 82-87) are
  not connected to any view model: forwarding is only recorded as a ghost log of
  deliveries (`App.forwarded`), and changes neither the flag nor the view. The
  character editor's own handler is modelled on its own, by `CharacterEditor`. `main_menu.rs` and `combat_tracker.rs` contain only
  rendering.
- Process wiring is left out: `main` (logger, terminal setup, channel creation) beyond
  registering the views and building the `App`. `src/example_main.rs` is a rendering
  demo with threads and floating point.
