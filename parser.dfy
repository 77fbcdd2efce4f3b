/**
 * The character editor's parser (`src/parser/character_editor_parser.rs`): a token
 * sequence becomes the `Exit` event or one of four errors. Only the first token and
 * the number of tokens matter; the command word must be exactly "Exit" or "exit".
 */
module CharacterEditorParser {
  import opened Wrappers
  import opened CharacterEditorLexer
  import Application

  /** `CharacterEditorParserError`. */
  datatype ParserError =
    | FirstTokenCannotBeNumber(number: i8)
    | NoTokensProvided
    | UnknownCommand(command: string)
    | ExtraneousArgumentsProvided(tokens: seq<Token>)

  /** The two spellings the parser accepts for the exit command. */
  predicate IsExitWord(w: string)
  {
    w == "Exit" || w == "exit"
  }

  /**
   * `map_event`: the command word `commandSpecifier` together with the whole token
   * list it was taken from.
   */
  function MapEvent(commandSpecifier: string, tokens: seq<Token>): (r: Result<Application.Event, ParserError>)
    ensures r.Ok? <==> IsExitWord(commandSpecifier) && |tokens| == 1
    ensures r.Ok? ==> r.value == Application.Event.Exit
    ensures r.Err? && IsExitWord(commandSpecifier) ==> r.error == ExtraneousArgumentsProvided(tokens)
    ensures !IsExitWord(commandSpecifier) ==> r == Err(UnknownCommand(commandSpecifier))
  {
    if IsExitWord(commandSpecifier) then
      if |tokens| == 1 then Ok(Application.Event.Exit)
      else Err(ExtraneousArgumentsProvided(tokens))
    else
      Err(UnknownCommand(commandSpecifier))
  }

  /** `parse`. */
  function Parse(tokens: seq<Token>): (r: Result<Application.Event, ParserError>)
    ensures r.Ok? <==> tokens == [Word("exit")] || tokens == [Word("Exit")]
    ensures r.Ok? ==> r.value == Application.Event.Exit
    ensures r == Err(NoTokensProvided) <==> tokens == []
  {
    if tokens != [] then
      match tokens[0]
      case Word(command) => MapEvent(command, tokens)
      case Number(n) => Err(FirstTokenCannotBeNumber(n))
    else
      Err(NoTokensProvided)
  }

  /** A leading number is rejected with that same number. */
  lemma ParseFirstNumber(n: i8, rest: seq<Token>)
    ensures Parse([Number(n)] + rest) == Err(FirstTokenCannotBeNumber(n))
  {
  }

  /** An exit word followed by anything is rejected with the whole token list, command word included. */
  lemma ParseExtraneous(w: string, rest: seq<Token>)
    requires IsExitWord(w) && rest != []
    ensures Parse([Word(w)] + rest) == Err(ExtraneousArgumentsProvided([Word(w)] + rest))
  {
  }

  /** Any other leading word is an unknown command carrying that word, whatever follows. */
  lemma ParseUnknown(w: string, rest: seq<Token>)
    requires !IsExitWord(w)
    ensures Parse([Word(w)] + rest) == Err(UnknownCommand(w))
  {
  }

  /** Matching is exact: no other capitalisation of "exit" is accepted. */
  lemma ParseIsCaseSensitive()
    ensures Parse([Word("EXIT")]) == Err(UnknownCommand("EXIT"))
    ensures Parse([Word("eXit")]) == Err(UnknownCommand("eXit"))
  {
    ParseUnknown("EXIT", []);
    ParseUnknown("eXit", []);
  }

  /**
   * The result depends only on the first token and the number of tokens, except that
   * the extraneous-arguments error carries the list it was given.
   */
  lemma ParseDependsOnHeadAndLength(ts: seq<Token>, us: seq<Token>)
    requires |ts| == |us| && (ts == [] || ts[0] == us[0])
    ensures Parse(ts).Err? && Parse(ts).error.ExtraneousArgumentsProvided? ==>
              Parse(us) == Err(ExtraneousArgumentsProvided(us))
    ensures !(Parse(ts).Err? && Parse(ts).error.ExtraneousArgumentsProvided?) ==> Parse(us) == Parse(ts)
  {
  }
}
